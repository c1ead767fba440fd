/**
 Printing dependencies is stable: exactly when a relation's own rewriting is a
 fixed point, so that re-reading and re-printing an index changes nothing.
 */
module DependencyStability {
  import opened Text
  import opened Numbers
  import opened Dependencies

  const MARK: string := "(~>"

  // ------------------------------------------------------- shape of rewriting

  predicate Special(c: char)
  {
    IsSpace(c) || c == '(' || c == ',' || c == '|'
  }

  /** Texts that differ only in characters no rule looks at. */
  ghost predicate SameShape(a: string, b: string)
  {
    |a| == |b| && forall i :: 0 <= i < |a| && a[i] != b[i] ==> !Special(a[i]) && !Special(b[i])
  }

  lemma {:induction false} SameShapeTrim(a: string, b: string)
    requires SameShape(a, b)
    ensures |TrimLeft(a)| == |TrimLeft(b)| && SameShape(TrimLeft(a), TrimLeft(b))
  {
    if a != "" && IsSpace(a[0]) {
      assert b[0] == a[0];
      SameShapeTrim(a[1..], b[1..]);
    }
  }

  lemma {:induction false} SameShapeWord(a: string, b: string)
    requires SameShape(a, b)
    ensures WordLength(a) == WordLength(b)
  {
    if a != "" && !IsSpace(a[0]) {
      SameShapeWord(a[1..], b[1..]);
    }
  }

  lemma {:induction false} SameShapeWords(a: string, b: string)
    requires SameShape(a, b)
    ensures |Words(a)| == |Words(b)|
    decreases |a|
  {
    SameShapeTrim(a, b);
    var x, y := TrimLeft(a), TrimLeft(b);
    if x != "" {
      SameShapeWord(x, y);
      SameShapeWords(x[WordLength(x)..], y[WordLength(y)..]);
    }
  }

  lemma {:induction false} LowerAllAt(s: string, i: nat)
    requires i < |s|
    ensures LowerAll(s)[i] == Lower(s[i])
  {
    if i > 0 { LowerAllAt(s[1..], i - 1); }
  }

  lemma {:induction false} DashesAt(s: string, i: nat)
    requires i < |s|
    ensures Dashes(s)[i] == if s[i] == '_' then '-' else s[i]
  {
    if i > 0 { DashesAt(s[1..], i - 1); }
  }

  function RewrittenChar(s: string, i: nat): char
    requires i < |s|
  {
    var c := if i < PrefixNotOf(s, {' ', '('}) then Lower(s[i]) else s[i];
    if c == '_' then '-' else c
  }

  lemma RewrittenAt(s: string, i: nat)
    requires i < |s|
    ensures |Dashes(LowerName(s))| == |s|
    ensures Dashes(LowerName(s))[i] == RewrittenChar(s, i)
  {
    var n := PrefixNotOf(s, {' ', '('});
    DashesAt(LowerName(s), i);
    if i < n { LowerAllAt(s[..n], i); }
  }

  lemma RewrittenShape(s: string)
    ensures SameShape(s, Dashes(LowerName(s)))
  {
    var t := Dashes(LowerName(s));
    forall i | 0 <= i < |s| && s[i] != t[i] ensures !Special(s[i]) && !Special(t[i]) {
      RewrittenAt(s, i);
    }
  }

  lemma {:induction false} SameShapePrefix(a: string, b: string)
    requires SameShape(a, b)
    ensures PrefixNotOf(a, {' ', '('}) == PrefixNotOf(b, {' ', '('})
  {
    if a != "" {
      assert a[0] != b[0] ==> !Special(a[0]) && !Special(b[0]);
      if a[0] !in {' ', '('} { SameShapePrefix(a[1..], b[1..]); }
    }
  }

  lemma SameShapeHolds(a: string, b: string, c: char)
    requires SameShape(a, b) && c in {'(', ',', '|'}
    ensures c in a <==> c in b
  {
    if c in a { var i :| 0 <= i < |a| && a[i] == c; assert b[i] == c; }
    if c in b { var i :| 0 <= i < |b| && b[i] == c; assert a[i] == c; }
  }

  lemma RewrittenTwice(s: string)
    ensures Dashes(LowerName(Dashes(LowerName(s)))) == Dashes(LowerName(s))
  {
    var t := Dashes(LowerName(s));
    RewrittenShape(s);
    SameShapePrefix(s, t);
    forall i | 0 <= i < |t| ensures Dashes(LowerName(t))[i] == t[i] {
      RewrittenAt(s, i);
      RewrittenAt(t, i);
    }
  }

  /** Preparing twice is preparing once. */
  lemma PrepareIdempotent(s: string)
    ensures Prepare(Prepare(s)) == Prepare(s)
  {
    var o := OperatorForm(s);
    var p := Prepare(s);
    RewrittenShape(o);
    SameShapeHolds(o, p, '(');
    SameShapeHolds(o, p, ',');
    SameShapeHolds(o, p, '|');
    SameShapeWords(o, p);
    RewrittenTwice(o);
  }

  predicate NoTrailingBlank(s: string)
  {
    s == "" || !CutSpace(s[|s| - 1])
  }

  lemma PrepareKeepsEnd(s: string)
    requires NoTrailingBlank(s)
    ensures NoTrailingBlank(Prepare(s))
  {
    var o := OperatorForm(s);
    RewrittenShape(o);
    if o != "" { RewrittenAt(o, |o| - 1); }
  }

  // ------------------------------------------------------------ printed bounds

  function Bound(name: string, operator: string, version: string): string
  {
    name + " (" + operator + " " + version + ")"
  }

  /** A bound's text after its name. */
  function Tail(operator: string, version: string): string
  {
    "(" + operator + " " + version + ")"
  }

  lemma BoundText(name: string, operator: string, version: string)
    ensures var e := Bound(name, operator, version);
            && e == name + [' '] + Tail(operator, version)
            && e == name + (" " + Tail(operator, version))
            && |e| > |name| + 1 && e[..|name|] == name && e[|name|] == ' ' && e[|name| + 1] == '('
            && e[|name|..] == " " + Tail(operator, version) && e[|name| + 1..] == Tail(operator, version)
            && e[|e| - 1] == ')'
  {
  }

  lemma {:induction false} PrefixNotOfSplit(a: string, c: char, b: string, stops: set<char>)
    requires forall i :: 0 <= i < |a| ==> a[i] !in stops
    requires c in stops
    ensures PrefixNotOf(a + [c] + b, stops) == |a|
  {
    if a == "" {
      assert a + [c] + b == [c] + b;
    } else {
      assert (a + [c] + b)[1..] == a[1..] + [c] + b;
      PrefixNotOfSplit(a[1..], c, b, stops);
    }
  }

  lemma {:induction false} PrefixNotOfAt(s: string, stops: set<char>, i: nat)
    requires i < PrefixNotOf(s, stops)
    ensures s[i] !in stops
  {
    if i > 0 { PrefixNotOfAt(s[1..], stops, i - 1); }
  }

  ghost predicate AllSpaces(s: string)
  {
    forall i :: 0 <= i < |s| ==> s[i] in PATTERN_SPACES
  }

  ghost predicate Spaceless(s: string)
  {
    forall i :: 0 <= i < |s| ==> s[i] !in PATTERN_SPACES
  }

  /** No bound is an inequality or an exact constraint. */
  lemma BoundNotConstraint(name: string, operator: string, version: string, other: string)
    requires name != "" && Spaceless(name)
    requires operator in {">=", "<<"} && other in {"!=", "="}
    ensures MatchConstraint(Bound(name, operator, version), other).None?
  {
    var s := Bound(name, operator, version);
    var tail := Tail(operator, version);
    BoundText(name, operator, version);
    PrefixNotOfSplit(name, ' ', tail, PATTERN_SPACES);
    SingleGap(tail);
    OperatorsDiffer(operator, version, other);
  }

  lemma SingleGap(tail: string)
    requires tail != "" && tail[0] == '('
    ensures PrefixOf(" " + tail, PATTERN_SPACES) == 1
  {
    assert (" " + tail)[1..] == tail;
  }

  lemma OperatorsDiffer(operator: string, version: string, other: string)
    requires operator in {">=", "<<"} && other in {"!=", "="}
    ensures !HasPrefix(Tail(operator, version), "(" + other + " ")
  {
    assert Tail(operator, version)[1] == operator[0];
    assert ("(" + other + " ")[1] == other[0];
  }

  /** A bound that is not itself pessimistic prints as itself. */
  lemma BoundPrintsItself(name: string, operator: string, version: string, ignoreIteration: bool)
    requires name != "" && Spaceless(name) && operator in {">=", "<<"}
    requires Pessimistic(Bound(name, operator, version)).None?
    ensures NormalizePrepared(Bound(name, operator, version), ignoreIteration) == ([Bound(name, operator, version)], "")
  {
    BoundNotConstraint(name, operator, version, "!=");
    BoundNotConstraint(name, operator, version, "=");
  }

  lemma {:induction false} LowerAllFixed(s: string)
    ensures LowerAll(s) == s <==> !HasUpper(s)
  {
    if s != "" {
      LowerAllFixed(s[1..]);
      assert LowerAll(s)[1..] == LowerAll(s[1..]);
    }
  }

  lemma {:induction false} DashesFixed(s: string)
    requires '_' !in s
    ensures Dashes(s) == s
  {
    if s != "" { DashesFixed(s[1..]); }
  }

  /** Preparing a bound only lowers its name. */
  lemma PrepareBound(name: string, operator: string, version: string)
    requires operator in {">=", "<<"} && '_' !in name && '_' !in version
    requires ' ' !in name && '(' !in name
    ensures Prepare(Bound(name, operator, version)) == Bound(LowerAll(name), operator, version)
  {
    var t := Bound(LowerAll(name), operator, version);
    BoundText(name, operator, version);
    LowerNameBound(name, operator, version);
    LowerAllFree(name, '_');
    BoundFree(LowerAll(name), operator, version, '_');
    DashesFixed(t);
  }

  lemma LowerNameBound(name: string, operator: string, version: string)
    requires ' ' !in name && '(' !in name
    ensures LowerName(Bound(name, operator, version)) == Bound(LowerAll(name), operator, version)
  {
    BoundText(name, operator, version);
    BoundText(LowerAll(name), operator, version);
    PrefixNotOfSplit(name, ' ', Tail(operator, version), {' ', '('});
  }

  lemma LowerAllFree(s: string, c: char)
    requires c !in s && !('a' <= c <= 'z')
    ensures c !in LowerAll(s)
  {
    forall i | 0 <= i < |s| ensures LowerAll(s)[i] != c { LowerAllAt(s, i); }
  }

  lemma BoundFree(name: string, operator: string, version: string, c: char)
    requires operator in {">=", "<<"} && c !in name && c !in version && c in {'_', '~'}
    ensures c !in Bound(name, operator, version)
  {
  }

  // -------------------------------------------------------- pessimistic branch

  lemma {:induction false} StripFree(s: string, c: char)
    ensures c in {'(', ')', '~', '>'} || c !in s ==> c !in Strip(s)
  {
    if s != "" { StripFree(s[1..], c); }
  }

  lemma {:induction false} WordsFree(s: string, c: char)
    requires c !in s
    ensures Free(Words(s), c)
    decreases |s|
  {
    TrimLeftFree(s, c);
    var t := TrimLeft(s);
    if t != "" { WordsFree(t[WordLength(t)..], c); }
  }

  lemma {:induction false} WordLengthAt(s: string, i: nat)
    requires i < WordLength(s)
    ensures !IsSpace(s[i])
  {
    if i > 0 { WordLengthAt(s[1..], i - 1); }
  }

  lemma {:induction false} WordsAreWords(s: string)
    ensures forall i :: 0 <= i < |Words(s)| ==> Word(Words(s)[i])
    decreases |s|
  {
    var t := TrimLeft(s);
    if t != "" {
      forall i | 0 <= i < WordLength(t) ensures !IsSpace(t[i]) { WordLengthAt(t, i); }
      assert Word(t[..WordLength(t)]);
      WordsAreWords(t[WordLength(t)..]);
    }
  }

  lemma {:induction false} ContainsFree(s: string)
    requires '~' !in s
    ensures !Contains(s, MARK)
  {
    assert MARK[1] == '~';
    if s != "" { ContainsFree(s[1..]); }
  }

  lemma NumberTextFree(numbers: seq<int>, c: char)
    requires !IsDigit(c) && c != '-' && c != '.'
    ensures c !in JoinNumericVersion(numbers)
  {
    TextsFree(numbers, c);
    JoinFree(Texts(numbers), ".", c);
  }

  lemma PrepareHasNoUnderscore(s: string)
    ensures '_' !in Prepare(s)
  {
    var o := OperatorForm(s);
    forall i | 0 <= i < |Prepare(s)| ensures Prepare(s)[i] != '_' {
      DashesAt(LowerName(o), i);
    }
  }

  /** Names and versions of a pessimistic relation hold none of the characters the rules look at. */
  lemma PessimisticParts(s: string)
    requires Pessimistic(s).Some? && '_' !in s
    ensures var (name, version) := Pessimistic(s).value;
            Word(name) && '(' !in name && '~' !in name && '_' !in name && '~' !in version && '_' !in version
  {
    StripFree(s, '(');
    StripFree(s, '~');
    StripFree(s, '_');
    WordsFree(Strip(s), '(');
    WordsFree(Strip(s), '~');
    WordsFree(Strip(s), '_');
    WordsAreWords(Strip(s));
  }

  /** A bound prints with its name in lower case. */
  lemma BoundPrints(name: string, operator: string, version: string, ignoreIteration: bool)
    requires Word(name) && '(' !in name && '~' !in name && '_' !in name && '~' !in version && '_' !in version
    requires operator in {">=", "<<"}
    ensures Normalize(Bound(name, operator, version), ignoreIteration) == ([Bound(LowerAll(name), operator, version)], "")
  {
    var lower := LowerAll(name);
    WordSpaceless(name);
    PrepareBound(name, operator, version);
    LowerAllFree(name, '~');
    BoundFree(lower, operator, version, '~');
    ContainsFree(Bound(lower, operator, version));
    BoundPrintsItself(lower, operator, version, ignoreIteration);
  }

  /** One emitted pessimistic bound prints as itself exactly when its name is in lower case. */
  lemma PessimisticBoundSettles(name: string, operator: string, version: string, ignoreIteration: bool)
    requires Word(name) && '(' !in name && '~' !in name && '_' !in name && '~' !in version && '_' !in version
    requires operator in {">=", "<<"}
    ensures var e := Bound(name, operator, version);
            Normalize(e, ignoreIteration) == ([e], "") <==> !HasUpper(name)
  {
    BoundPrints(name, operator, version, ignoreIteration);
    LowerAllFixed(name);
    BoundText(name, operator, version);
    BoundText(LowerAll(name), operator, version);
  }

  lemma WordSpaceless(name: string)
    requires Word(name)
    ensures ' ' !in name && Spaceless(name) && Spaceless(LowerAll(name))
  {
    forall i | 0 <= i < |name| ensures LowerAll(name)[i] !in PATTERN_SPACES {
      LowerAllAt(name, i);
      assert !IsSpace(name[i]);
    }
  }

  // -------------------------------------------------------------- exact branch

  lemma {:induction false} ContainsAcross(a: string, c: char, b: string)
    requires c !in MARK
    ensures Contains(a + [c] + b, MARK) <==> Contains(a, MARK) || Contains(b, MARK)
  {
    var s := a + [c] + b;
    assert c != MARK[0] && c != MARK[1] && c != MARK[2];
    if a == "" {
      assert s == [c] + b && s[1..] == b;
    } else {
      assert s[1..] == a[1..] + [c] + b;
      ContainsAcross(a[1..], c, b);
      PrefixAcross(a, c, b);
    }
  }

  lemma PrefixAcross(a: string, c: char, b: string)
    requires c !in MARK
    ensures HasPrefix(a + [c] + b, MARK) <==> HasPrefix(a, MARK)
  {
    var s := a + [c] + b;
    if |a| < 3 {
      assert s[|a|] == c && c != MARK[|a|];
    } else {
      assert s[..3] == a[..3];
    }
  }

  lemma {:induction false} ContainsAfterGap(gap: string, b: string)
    requires AllSpaces(gap)
    ensures Contains(gap + b, MARK) <==> Contains(b, MARK)
  {
    if gap == "" {
      assert gap + b == b;
    } else {
      assert gap + b == "" + [gap[0]] + (gap[1..] + b);
      ContainsAcross("", gap[0], gap[1..] + b);
      ContainsAfterGap(gap[1..], b);
      assert !Contains("", MARK);
    }
  }

  lemma {:induction false} StripConcat(a: string, b: string)
    ensures Strip(a + b) == Strip(a) + Strip(b)
  {
    if a == "" {
      assert a + b == b;
    } else {
      assert (a + b)[1..] == a[1..] + b;
      StripConcat(a[1..], b);
    }
  }

  lemma {:induction false} StripGap(gap: string)
    requires AllSpaces(gap)
    ensures Strip(gap) == gap
  {
    if gap != "" { StripGap(gap[1..]); }
  }

  lemma {:induction false} WordLengthAcross(a: string, c: char, b: string)
    requires IsSpace(c)
    ensures WordLength(a + [c] + b) == WordLength(a)
  {
    if a == "" {
      assert a + [c] + b == [c] + b;
    } else if !IsSpace(a[0]) {
      assert (a + [c] + b)[1..] == a[1..] + [c] + b;
      WordLengthAcross(a[1..], c, b);
    }
  }

  lemma {:induction false} TrimLeftAcross(a: string, c: char, b: string)
    requires IsSpace(c)
    ensures TrimLeft(a + [c] + b) == if TrimLeft(a) == "" then TrimLeft(b) else TrimLeft(a) + [c] + b
  {
    var s := a + [c] + b;
    if a == "" {
      assert s == [c] + b && s[1..] == b;
    } else if IsSpace(a[0]) {
      assert s[1..] == a[1..] + [c] + b;
      TrimLeftAcross(a[1..], c, b);
    }
  }

  /** A blank separates the words before it from the words after it. */
  lemma {:induction false} WordsAcross(a: string, c: char, b: string)
    requires IsSpace(c)
    ensures Words(a + [c] + b) == Words(a) + Words(b)
    decreases |a|
  {
    var s := a + [c] + b;
    TrimLeftAcross(a, c, b);
    var t := TrimLeft(a);
    if t == "" {
    } else {
      WordLengthAcross(t, c, b);
      var n := WordLength(t);
      assert (t + [c] + b)[..n] == t[..n];
      assert (t + [c] + b)[n..] == t[n..] + [c] + b;
      WordsAcross(t[n..], c, b);
      assert [t[..n]] + (Words(t[n..]) + Words(b)) == [t[..n]] + Words(t[n..]) + Words(b);
    }
  }

  lemma {:induction false} WordsAfterGap(a: string, gap: string, b: string)
    requires gap != "" && AllSpaces(gap)
    ensures Words(a + gap + b) == Words(a) + Words(b)
    decreases |gap|
  {
    var c := gap[0];
    assert a + gap + b == a + [c] + (gap[1..] + b);
    WordsAcross(a, c, gap[1..] + b);
    if |gap| == 1 {
      assert gap[1..] + b == b;
    } else {
      assert gap[1..] + b == "" + gap[1..] + b;
      WordsAfterGap("", gap[1..], b);
      assert Words("") == [];
    }
  }

  /** What a matched exact constraint looks like. */
  lemma ExactShape(s: string) returns (gap: string)
    requires MatchConstraint(s, "=").Some?
    ensures var (name, version) := MatchConstraint(s, "=").value;
            && name != "" && Spaceless(name) && gap != ""
            && s == name + gap + ("(= " + version + ")")
    ensures AllSpaces(gap)
  {
    var n := PrefixNotOf(s, PATTERN_SPACES);
    var k := PrefixOf(s[n..], PATTERN_SPACES);
    gap := s[n..n + k];
    NameSpaceless(s);
    GapSpaces(s[n..]);
    assert gap == s[n..][..k];
    assert "(" + "=" + " " == "(= ";
  }

  lemma NameSpaceless(s: string)
    ensures Spaceless(s[..PrefixNotOf(s, PATTERN_SPACES)])
  {
    var n := PrefixNotOf(s, PATTERN_SPACES);
    forall i | 0 <= i < n ensures s[..n][i] !in PATTERN_SPACES { PrefixNotOfAt(s, PATTERN_SPACES, i); }
  }

  lemma GapSpaces(s: string)
    ensures AllSpaces(s[..PrefixOf(s, PATTERN_SPACES)])
  {
    var k := PrefixOf(s, PATTERN_SPACES);
    forall i | 0 <= i < k ensures s[..k][i] in PATTERN_SPACES { PrefixOfAt(s, PATTERN_SPACES, i); }
  }

  lemma {:induction false} PrefixOfAt(s: string, allowed: set<char>, i: nat)
    requires i < PrefixOf(s, allowed)
    ensures s[i] in allowed
  {
    if i > 0 { PrefixOfAt(s[1..], allowed, i - 1); }
  }

  /** A prepared text's own bounds need no preparing. */
  lemma PreparedBound(s: string, name: string, operator: string, version: string)
    requires Prepare(s) == s && name <= s && name != "" && Spaceless(name)
    requires '_' !in name && '_' !in version && operator in {">=", "<<"}
    ensures Prepare(Bound(name, operator, version)) == Bound(name, operator, version)
  {
    var e := Bound(name, operator, version);
    BoundText(name, operator, version);
    LoweredPrefix(s, name, e);
    BoundFree(name, operator, version, '_');
    DashesFixed(e);
  }

  lemma LoweredPrefix(s: string, name: string, e: string)
    requires Prepare(s) == s && name <= s && Spaceless(name)
    requires |name| + 1 < |e| && e[..|name|] == name && e[|name|] == ' '
    ensures LowerName(e) == e
  {
    PrepareIdempotent(s);
    var n := PrefixNotOf(e, {' ', '('});
    if n > |name| { PrefixNotOfAt(e, {' ', '('}, |name|); }
    assert n <= |name|;
    forall i | 0 <= i < n ensures Lower(e[i]) == e[i] {
      PrefixNotOfAt(e, {' ', '('}, i);
      StillInName(s, e, i);
      PreparedAt(s, i);
    }
    forall i | 0 <= i < n ensures LowerAll(e[..n])[i] == e[i] { LowerAllAt(e[..n], i); }
    assert LowerAll(e[..n]) == e[..n];
  }

  lemma {:induction false} StillInName(s: string, e: string, i: nat)
    requires i < |s| && i < |e| && s[..i + 1] == e[..i + 1] && i < PrefixNotOf(e, {' ', '('})
    ensures i < PrefixNotOf(s, {' ', '('})
  {
    assert s[0] == s[..i + 1][0] == e[..i + 1][0] == e[0];
    if i > 0 {
      assert s[1..][..i] == s[..i + 1][1..] == e[..i + 1][1..] == e[1..][..i];
      StillInName(s[1..], e[1..], i - 1);
    }
  }

  lemma PreparedAt(s: string, i: nat)
    requires Prepare(s) == s && i < PrefixNotOf(s, {' ', '('})
    ensures Lower(s[i]) == s[i]
  {
    var o := OperatorForm(s);
    OperatorFormOfPrepared(s);
    RewrittenAt(s, i);
  }

  lemma OperatorFormOfPrepared(s: string)
    requires Prepare(s) == s
    ensures OperatorForm(s) == s
  {
    var o := OperatorForm(s);
    RewrittenShape(o);
    SameShapeHolds(o, s, '(');
    SameShapeHolds(o, s, ',');
    SameShapeHolds(o, s, '|');
    SameShapeWords(o, s);
  }

  /** The mark occurs in a bound where it occurs in its name or version. */
  lemma BoundContains(name: string, operator: string, version: string)
    requires operator in {">=", "<<"}
    ensures Contains(Bound(name, operator, version), MARK) <==> Contains(name, MARK) || Contains(version + ")", MARK)
  {
    BoundText(name, operator, version);
    TailText(operator, version);
    ContainsAcross(name, ' ', ("(" + operator) + [' '] + (version + ")"));
    ContainsAcross("(" + operator, ' ', version + ")");
    assert '~' !in "(" + operator;
    ContainsFree("(" + operator);
  }

  lemma TailText(operator: string, version: string)
    ensures Tail(operator, version) == ("(" + operator) + [' '] + (version + ")")
  {
  }

  lemma ExactTailText(version: string)
    ensures "(= " + version + ")" == "(=" + [' '] + (version + ")")
  {
  }

  lemma ExactContains(s: string)
    requires MatchConstraint(s, "=").Some?
    ensures var (name, version) := MatchConstraint(s, "=").value;
            Contains(s, MARK) <==> Contains(name, MARK) || Contains(version + ")", MARK)
  {
    var (name, version) := MatchConstraint(s, "=").value;
    var gap := ExactShape(s);
    GapContains(name, gap, "(= " + version + ")");
    ExactTailText(version);
    ContainsAcross("(=", ' ', version + ")");
    ContainsFree("(=");
  }

  lemma GapContains(name: string, gap: string, rest: string)
    requires gap != "" && AllSpaces(gap)
    ensures Contains(name + gap + rest, MARK) <==> Contains(name, MARK) || Contains(rest, MARK)
  {
    assert name + gap + rest == name + [gap[0]] + (gap[1..] + rest);
    ContainsAcross(name, gap[0], gap[1..] + rest);
    ContainsAfterGap(gap[1..], rest);
  }

  lemma BoundWords(name: string, operator: string, version: string)
    requires operator in {">=", "<<"}
    ensures Words(Strip(Bound(name, operator, version))) ==
            Words(Strip(name)) + (Words(if operator == ">=" then "=" else "<<") + Words(Strip(version)))
  {
    var symbol := if operator == ">=" then "=" else "<<";
    BoundText(name, operator, version);
    StripConcat(name, " " + Tail(operator, version));
    StripConcat(" ", Tail(operator, version));
    StripTail(operator, version);
    StripSymbols(operator);
    ThreeWords(Strip(name), symbol, Strip(version));
  }

  lemma ThreeWords(name: string, symbol: string, version: string)
    ensures Words(name + (" " + (symbol + [' '] + version))) == Words(name) + (Words(symbol) + Words(version))
  {
    assert name + (" " + (symbol + [' '] + version)) == name + [' '] + (symbol + [' '] + version);
    WordsAcross(name, ' ', symbol + [' '] + version);
    WordsAcross(symbol, ' ', version);
  }

  lemma StripTail(operator: string, version: string)
    requires operator in {">=", "<<"}
    ensures Strip(Tail(operator, version)) == (if operator == ">=" then "=" else "<<") + [' '] + Strip(version)
  {
    assert Tail(operator, version) == ("(" + operator) + (" " + (version + ")"));
    StripConcat("(" + operator, " " + (version + ")"));
    StripConcat(" ", version + ")");
    StripConcat(version, ")");
    StripSymbols(operator);
  }

  lemma StripSymbols(operator: string)
    requires operator in {">=", "<<"}
    ensures Strip("(" + operator) == (if operator == ">=" then "=" else "<<")
    ensures Strip(" ") == " " && Strip(")") == ""
  {
    assert " "[1..] == "" && ")"[1..] == "";
    var s := "(" + operator;
    assert s[1..] == operator;
    assert operator[1..][1..] == "";
    assert s[1..][1..] == operator[1..];
  }

  lemma ExactWords(s: string)
    requires MatchConstraint(s, "=").Some?
    ensures var (name, version) := MatchConstraint(s, "=").value;
            Words(Strip(s)) == Words(Strip(name)) + (Words("=") + Words(Strip(version)))
  {
    var (name, version) := MatchConstraint(s, "=").value;
    var gap := ExactShape(s);
    var rest := "(= " + version + ")";
    StripConcat(name + gap, rest);
    StripConcat(name, gap);
    StripGap(gap);
    WordsAfterGap(Strip(name), gap, Strip(rest));
    StripExactTail(version);
    WordsAcross("=", ' ', Strip(version));
  }

  lemma StripExactTail(version: string)
    ensures Strip("(= " + version + ")") == "=" + [' '] + Strip(version)
  {
    assert "(= " + version + ")" == "(=" + (" " + (version + ")"));
    StripConcat("(=", " " + (version + ")"));
    StripConcat(" ", version + ")");
    StripConcat(version, ")");
    StripSymbols(">=");
  }

  lemma SymbolWords()
    ensures |Words("=")| == 1 && |Words("<<")| == 1
  {
    assert "="[1..] == "" && "<<"[1..] == "<" && "<"[1..] == "";
    assert WordLength("=") == 1 && WordLength("<<") == 2;
    assert "="[1..] == "" && "<<"[2..] == "";
    assert Words("") == [];
  }

  lemma {:induction false} WordsNonEmpty(s: string, i: nat)
    requires i < |s| && !IsSpace(s[i])
    ensures |Words(s)| >= 1
  {
    TrimLeftBlank(s);
  }

  lemma NumberWords(numbers: seq<int>)
    requires numbers != []
    ensures |Words(Strip(JoinNumericVersion(numbers)))| >= 1
  {
    var text := JoinNumericVersion(numbers);
    var first := Itoa(numbers[0]);
    assert text != "" && text[0] == first[0] && (IsDigit(first[0]) || first[0] == '-');
    assert Strip(text)[0] == text[0];
    WordsNonEmpty(Strip(text), 0);
  }

  /** The two bounds of an exact constraint settle exactly when its name holds no pessimistic mark. */
  lemma ExactBoundsSettle(s: string, ignoreIteration: bool)
    requires Prepare(s) == s && '_' !in s && Pessimistic(s).None? && MatchConstraint(s, "=").Some?
    ensures var (name, version) := MatchConstraint(s, "=").value;
            var number := JoinNumericVersion(ExtensionBound(NumericVersion(version)));
            var lower, upper := Bound(name, ">=", version), Bound(name, "<<", number);
            Normalize(lower, ignoreIteration) == ([lower], "") &&
            (Normalize(upper, ignoreIteration) == ([upper], "") <==> !Contains(name, MARK))
  {
    var (name, version) := MatchConstraint(s, "=").value;
    var gap := ExactShape(s);
    assert name <= s;
    PreparedBound(s, name, ">=", version);
    LowerBoundSettles(s, name, version, ignoreIteration);
    UpperBoundSettles(s, name, ExtensionBound(NumericVersion(version)), ignoreIteration);
  }

  lemma UpperBoundSettles(s: string, name: string, upper: seq<int>, ignoreIteration: bool)
    requires Prepare(s) == s && '_' !in s && name <= s && name != "" && Spaceless(name) && upper != []
    ensures var e := Bound(name, "<<", JoinNumericVersion(upper));
            Normalize(e, ignoreIteration) == ([e], "") <==> !Contains(name, MARK)
  {
    var number := JoinNumericVersion(upper);
    NumberTextFree(upper, '_');
    NumberTextFree(upper, '~');
    PreparedBound(s, name, "<<", number);
    BoundContains(name, "<<", number);
    ContainsFree(number + ")");
    if Contains(name, MARK) {
      BoundWords(name, "<<", number);
      SymbolWords();
      NumberWords(upper);
      assert Pessimistic(Bound(name, "<<", number)).Some?;
    } else {
      BoundPrintsItself(name, "<<", number, ignoreIteration);
    }
  }

  lemma LowerBoundSettles(s: string, name: string, version: string, ignoreIteration: bool)
    requires Pessimistic(s).None? && MatchConstraint(s, "=") == Some((name, version))
    requires Prepare(Bound(name, ">=", version)) == Bound(name, ">=", version)
    ensures Normalize(Bound(name, ">=", version), ignoreIteration) == ([Bound(name, ">=", version)], "")
  {
    var gap := ExactShape(s);
    BoundContains(name, ">=", version);
    ExactContains(s);
    BoundWords(name, ">=", version);
    ExactWords(s);
    BoundPrintsItself(name, ">=", version, ignoreIteration);
  }

  // ------------------------------------------------------------ blanks cut off the end

  lemma {:induction false} PrefixNotOfFront(u: string, c: char, stops: set<char>)
    ensures PrefixNotOf(u + [c], stops) == if PrefixNotOf(u, stops) == |u| && c !in stops then |u| + 1 else PrefixNotOf(u, stops)
  {
    if u == "" {
      assert u + [c] == [c] && [c][1..] == "";
    } else {
      assert (u + [c])[1..] == u[1..] + [c];
      PrefixNotOfFront(u[1..], c, stops);
    }
  }

  lemma RewrittenFront(u: string, c: char)
    requires CutSpace(c) && Dashes(LowerName(u + [c])) == u + [c]
    ensures Dashes(LowerName(u)) == u
  {
    var s, t := u + [c], Dashes(LowerName(u));
    PrefixNotOfFront(u, c, {' ', '('});
    RewrittenShape(u);
    forall i | 0 <= i < |u| ensures t[i] == u[i] {
      RewrittenAt(u, i);
      RewrittenAt(s, i);
      assert s[i] == u[i];
    }
  }

  lemma WordsFront(u: string, c: char)
    requires IsSpace(c)
    ensures Words(u + [c]) == Words(u)
  {
    assert u + [c] + "" == u + [c];
    WordsAcross(u, c, "");
    assert Words("") == [] && Words(u) + [] == Words(u);
  }

  lemma HoldsFront(u: string, c: char, x: char)
    requires x != c
    ensures x in u + [c] <==> x in u
  {
  }

  lemma OperatorFront(u: string, c: char)
    requires CutSpace(c) && OperatorForm(u + [c]) == u + [c] && Dashes(LowerName(u + [c])) == u + [c]
    ensures Prepare(u) == u
  {
    HoldsFront(u, c, '(');
    HoldsFront(u, c, ',');
    HoldsFront(u, c, '|');
    WordsFront(u, c);
    RewrittenFront(u, c);
  }

  /** A blank at its end does not change how a prepared relation is read. */
  lemma PreparedFront(u: string, c: char)
    requires CutSpace(c) && Prepare(u + [c]) == u + [c]
    ensures Prepare(u) == u && Pessimistic(u) == Pessimistic(u + [c])
  {
    OperatorFormOfPrepared(u + [c]);
    OperatorFront(u, c);
    PessimisticFront(u, c);
  }

  lemma PessimisticFront(u: string, c: char)
    requires CutSpace(c)
    ensures Pessimistic(u) == Pessimistic(u + [c])
  {
    StripConcat(u, [c]);
    assert Strip([c]) == [c] by { assert [c][1..] == ""; }
    WordsFront(Strip(u), c);
    assert u + [c] + "" == u + [c];
    ContainsAcross(u, c, "");
  }

  lemma {:induction false} PreparedCutOff(s: string)
    requires Prepare(s) == s
    ensures Prepare(TrimRightCut(s)) == TrimRightCut(s) && Pessimistic(TrimRightCut(s)) == Pessimistic(s)
    ensures NoTrailingBlank(TrimRightCut(s)) && TrimRightCut(TrimRightCut(s)) == TrimRightCut(s)
  {
    if s != "" && CutSpace(s[|s| - 1]) {
      var u := s[..|s| - 1];
      assert s == u + [s[|s| - 1]];
      PreparedFront(u, s[|s| - 1]);
      PreparedCutOff(u);
    }
  }

  // ------------------------------------------------------------------- theorem

  /** A constraint that is not printed as it is. */
  predicate Rewritten(s: string, ignoreIteration: bool)
  {
    MatchConstraint(s, "!=").Some? || (ignoreIteration && MatchConstraint(s, "=").Some?)
  }

  /**
   The guard: whether the branch a dependency takes prints fixed points, iterations being
   ignored in the first printing or not, and in the printing again or not.
   */
  predicate Settles(dependency: string, ignoreIteration: bool, again: bool)
  {
    var s := Prepare(dependency);
    if Pessimistic(s).Some? then !HasUpper(Pessimistic(s).value.0)
    else if MatchConstraint(s, "!=").Some? then true
    else if ignoreIteration && MatchConstraint(s, "=").Some? then !Contains(MatchConstraint(s, "=").value.0, MARK)
    else !Rewritten(TrimRightCut(s), again)
  }

  ghost predicate AllFixed(printed: seq<string>, ignoreIteration: bool)
  {
    forall i :: 0 <= i < |printed| ==> Normalize(printed[i], ignoreIteration) == ([printed[i]], "")
  }

  /**
   Every relation printed for a dependency prints as itself, exactly when the guard of
   the branch it takes holds.
   */
  lemma PrintedRelationsSettle(dependency: string, ignoreIteration: bool, again: bool)
    ensures AllFixed(Normalize(dependency, ignoreIteration).0, again) <==> Settles(dependency, ignoreIteration, again)
  {
    var s := Prepare(dependency);
    PrepareIdempotent(dependency);
    PrepareHasNoUnderscore(dependency);
    if Pessimistic(s).Some? {
      PessimisticSettles(s, again);
    } else if MatchConstraint(s, "!=").Some? {
    } else if ignoreIteration && MatchConstraint(s, "=").Some? {
      ExactBoundsSettle(s, again);
      var (name, version) := MatchConstraint(s, "=").value;
      TwoFixed(name, version, JoinNumericVersion(ExtensionBound(NumericVersion(version))), again);
    } else {
      DefaultSettles(s, again);
    }
  }

  lemma DefaultSettles(s: string, again: bool)
    requires Prepare(s) == s && Pessimistic(s).None?
    ensures AllFixed([TrimRightCut(s)], again) <==> !Rewritten(TrimRightCut(s), again)
  {
    PreparedCutOff(s);
    assert [TrimRightCut(s)][0] == TrimRightCut(s);
    if Rewritten(TrimRightCut(s), again) { RewrittenPrints(TrimRightCut(s), again); }
  }

  /** A constraint that is rewritten prints no relation or two. */
  lemma RewrittenPrints(s: string, ignoreIteration: bool)
    requires Prepare(s) == s && Pessimistic(s).None? && Rewritten(s, ignoreIteration)
    ensures |Normalize(s, ignoreIteration).0| != 1
  {
  }

  lemma TwoFixed(name: string, version: string, number: string, ignoreIteration: bool)
    ensures var lower, upper := Bound(name, ">=", version), Bound(name, "<<", number);
            AllFixed([name + " (>= " + version + ")", name + " (<< " + number + ")"], ignoreIteration) <==>
            Normalize(lower, ignoreIteration) == ([lower], "") && Normalize(upper, ignoreIteration) == ([upper], "")
  {
    var lower, upper := Bound(name, ">=", version), Bound(name, "<<", number);
    assert lower == name + " (>= " + version + ")";
    assert upper == name + " (<< " + number + ")";
    PairFixed(lower, upper, ignoreIteration);
  }

  lemma PairFixed(lower: string, upper: string, ignoreIteration: bool)
    ensures AllFixed([lower, upper], ignoreIteration) <==>
            Normalize(lower, ignoreIteration) == ([lower], "") && Normalize(upper, ignoreIteration) == ([upper], "")
  {
    if AllFixed([lower, upper], ignoreIteration) {
      assert [lower, upper][0] == lower && [lower, upper][1] == upper;
    }
  }

  lemma PessimisticSettles(s: string, ignoreIteration: bool)
    requires Pessimistic(s).Some? && '_' !in s
    ensures var (name, version) := Pessimistic(s).value;
            AllFixed(Bounds(name, version, PessimisticBound(NumericVersion(version))), ignoreIteration) <==> !HasUpper(name)
  {
    var (name, version) := Pessimistic(s).value;
    var upper := PessimisticBound(NumericVersion(version));
    var number := JoinNumericVersion(upper);
    PessimisticParts(s);
    NumberTextFree(upper, '_');
    NumberTextFree(upper, '~');
    PessimisticBoundSettles(name, ">=", version, ignoreIteration);
    PessimisticBoundSettles(name, "<<", number, ignoreIteration);
    TwoFixed(name, version, number, ignoreIteration);
  }

  // ------------------------------------------------------------------ families

  /** A word without parentheses, tildes, greater-than signs and underscores. */
  ghost predicate PlainWord(s: string)
  {
    Word(s) && forall i :: 0 <= i < |s| ==> s[i] !in {'(', ')', '~', '>', '_'}
  }

  lemma {:induction false} StripPlain(s: string)
    requires forall i :: 0 <= i < |s| ==> s[i] !in {'(', ')', '~', '>', '_'}
    ensures Strip(s) == s
  {
    if s != "" { StripPlain(s[1..]); }
  }

  lemma {:induction false} WordLengthWhole(s: string)
    requires forall i :: 0 <= i < |s| ==> !IsSpace(s[i])
    ensures WordLength(s) == |s|
  {
    if s != "" { WordLengthWhole(s[1..]); }
  }

  lemma WordsOfWord(s: string)
    requires Word(s)
    ensures Words(s) == [s]
  {
    WordLengthWhole(s);
    assert TrimLeft(s) == s && s[|s|..] == "" && s[..|s|] == s;
    assert Words("") == [] && [s] + [] == [s];
  }

  /** What follows a pessimistic mark. */
  function Marked(name: string, version: string): string
  {
    "(~> " + (name + (" " + (version + ")")))
  }

  lemma StripClosed(version: string)
    requires PlainWord(version)
    ensures Strip(version + ")") == version
  {
    StripConcat(version, ")");
    StripSymbols(">=");
    StripPlain(version);
  }

  lemma StripSpaced(name: string, rest: string)
    requires PlainWord(name)
    ensures Strip(name + (" " + rest)) == name + [' '] + Strip(rest)
  {
    StripConcat(name, " " + rest);
    StripConcat(" ", rest);
    StripSymbols(">=");
    StripPlain(name);
  }

  lemma StripMarked(name: string, version: string)
    requires PlainWord(name) && PlainWord(version)
    ensures Strip(Marked(name, version)) == " " + (name + [' '] + version)
  {
    StripConcat("(~> ", name + (" " + (version + ")")));
    StripMark();
    StripSpaced(name, version + ")");
    StripClosed(version);
  }

  /** The words of a stripped text with a marked name and version after a lead. */
  lemma MarkedWords(lead: string, name: string, version: string)
    requires PlainWord(name) && PlainWord(version)
    ensures Words(Strip(lead + Marked(name, version))) == Words(Strip(lead)) + ([name] + [version])
  {
    StripConcat(lead, Marked(name, version));
    StripMarked(name, version);
    assert Strip(lead) + (" " + (name + [' '] + version)) == Strip(lead) + [' '] + (name + [' '] + version);
    WordsAcross(Strip(lead), ' ', name + [' '] + version);
    WordsAcross(name, ' ', version);
    WordsOfWord(name);
    WordsOfWord(version);
  }

  lemma StripMark()
    ensures Strip("(~> ") == " "
  {
    assert "(~> "[1..] == "~> " && "~> "[1..] == "> " && "> "[1..] == " " && " "[1..] == "";
  }

  lemma {:induction false} ContainsAfter(a: string, b: string)
    requires HasPrefix(b, MARK)
    ensures Contains(a + b, MARK)
  {
    if a == "" {
      assert a + b == b;
    } else {
      assert (a + b)[1..] == a[1..] + b;
      ContainsAfter(a[1..], b);
    }
  }

  /**
   A parenthesis in front hides the name from lower-casing: such a pessimistic relation
   prints bounds that print differently on the next pass.
   */
  lemma LeadingParenthesisUnsettled(name: string, version: string, ignoreIteration: bool)
    requires PlainWord(name) && PlainWord(version) && HasUpper(name)
    ensures forall again :: !Settles(Marked(name, version), ignoreIteration, again)
    ensures var printed := Normalize(Marked(name, version), ignoreIteration).0;
            && printed == Bounds(name, version, PessimisticBound(NumericVersion(version)))
            && Normalize(printed[0], ignoreIteration) == ([Bound(LowerAll(name), ">=", version)], "")
            && Bound(LowerAll(name), ">=", version) != printed[0]
  {
    MarkedParts(name, version);
    LowerBound(name, version, PessimisticBound(NumericVersion(version)));
    LoweredBoundPrints(name, version, ignoreIteration);
  }

  lemma LowerBound(name: string, version: string, upper: seq<int>)
    ensures Bounds(name, version, upper)[0] == Bound(name, ">=", version)
  {
  }

  lemma LoweredBoundPrints(name: string, version: string, ignoreIteration: bool)
    requires PlainWord(name) && PlainWord(version) && HasUpper(name)
    ensures Normalize(Bound(name, ">=", version), ignoreIteration) == ([Bound(LowerAll(name), ">=", version)], "")
    ensures Bound(LowerAll(name), ">=", version) != Bound(name, ">=", version)
  {
    BoundPrints(name, ">=", version, ignoreIteration);
    PessimisticBoundSettles(name, ">=", version, ignoreIteration);
  }

  /** A marked name and version are what a pessimistic relation expands, the name as it is. */
  lemma MarkedParts(name: string, version: string)
    requires PlainWord(name) && PlainWord(version)
    ensures Pessimistic(Prepare(Marked(name, version))) == Some((name, version))
  {
    var s := Marked(name, version);
    assert s[0] == '(';
    assert PrefixNotOf(s, {' ', '('}) == 0;
    assert s[..0] == "" && s[0..] == s;
    assert LowerName(s) == s;
    assert '_' !in s;
    DashesFixed(s);
    MarkedWords("", name, version);
    assert "" + s == s;
    assert HasPrefix(s, MARK);
    assert [] + ([name] + [version]) == [name, version];
  }

  /**
   A pessimistic relation on a numeric version prints the two bounds of its
   interval, and the printed upper bound reads back as the interval's end.
   */
  lemma PessimisticText(name: string, base: seq<int>, ignoreIteration: bool)
    requires PlainWord(name) && !HasUpper(name) && Components(base) && base != []
    ensures var version := JoinNumericVersion(base);
            Normalize(name + " (~> " + version + ")", ignoreIteration) ==
            (Bounds(name, version, PessimisticBound(base)), "")
    ensures NumericVersion(JoinNumericVersion(PessimisticBound(base))) == PessimisticBound(base)
  {
    var version := JoinNumericVersion(base);
    NumberPlain(base);
    VersionTextRoundTrip(base);
    VersionTextRoundTrip(PessimisticBound(base));
    PreparedPessimistic(name, version);
    PessimisticWords(name, version);
    MarkInside(name, version);
  }

  lemma PessimisticWords(name: string, version: string)
    requires PlainWord(name) && PlainWord(version)
    ensures Words(Strip(name + " (~> " + version + ")")) == [name, version]
  {
    var rest := "(~> " + (version + ")");
    assert name + " (~> " + version + ")" == name + (" " + rest);
    StripSpaced(name, rest);
    StripConcat("(~> ", version + ")");
    StripMark();
    StripClosed(version);
    WordsAcross(name, ' ', " " + version);
    assert " " + version == "" + [' '] + version;
    WordsAcross("", ' ', version);
    WordsOfWord(name);
    WordsOfWord(version);
  }

  lemma MarkInside(name: string, version: string)
    ensures Contains(name + " (~> " + version + ")", MARK)
  {
    var rest := "(~> " + version + ")";
    assert name + " (~> " + version + ")" == (name + " ") + rest;
    ContainsAfter(name + " ", rest);
  }

  lemma PreparedPessimistic(name: string, version: string)
    requires PlainWord(name) && PlainWord(version) && !HasUpper(name)
    ensures Prepare(name + " (~> " + version + ")") == name + " (~> " + version + ")"
  {
    var tail := "(~> " + version + ")";
    var s := name + " (~> " + version + ")";
    assert s == name + [' '] + tail;
    assert s[|name| + 1] == '(';
    WordSpaceless(name);
    PrefixNotOfSplit(name, ' ', tail, {' ', '('});
    LowerAllFixed(name);
    assert LowerName(s) == s by {
      assert s[..|name|] == name && name + s[|name|..] == s;
    }
    assert '_' !in s;
    DashesFixed(s);
    assert OperatorForm(s) == s by {
      assert '(' in s;
    }
  }

  lemma NumberPlain(numbers: seq<int>)
    requires numbers != []
    ensures PlainWord(JoinNumericVersion(numbers))
  {
    var text := JoinNumericVersion(numbers);
    forall i | 0 <= i < |text| ensures !IsSpace(text[i]) && text[i] !in {'(', ')', '~', '>', '_'} {
      NumberTextFree(numbers, ' ');
      if !IsDigit(text[i]) && text[i] != '-' && text[i] != '.' { NumberTextFree(numbers, text[i]); }
    }
    assert Itoa(numbers[0]) != "";
  }
}
