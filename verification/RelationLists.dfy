/**
 A Depends line as a list of relations: what it reads back as, and exactly when it is
 printed again as it was.
 */
module RelationLists {
  import opened Text
  import opened Numbers
  import opened Dependencies
  import opened DependencyStability
  import opened Packages

  // ------------------------------------------------------------------- reading a list

  /** A relation that reads back as itself from a list. */
  predicate GoodRelation(r: string)
  {
    ',' !in r && (r == "" || r[0] != ' ') && (WellFormedRelation(r) ==> Trimmed(r))
  }

  ghost predicate GoodRelations(rs: seq<string>)
  {
    forall i :: 0 <= i < |rs| ==> GoodRelation(rs[i])
  }

  function Spaced(rs: seq<string>): (spaced: seq<string>)
    ensures |spaced| == |rs|
  {
    if rs == [] then [] else [" " + rs[0]] + Spaced(rs[1..])
  }

  lemma {:induction false} SpacedFree(rs: seq<string>)
    requires Free(rs, ',')
    ensures Free(Spaced(rs), ',')
  {
    if rs != [] { SpacedFree(rs[1..]); }
  }

  lemma {:induction false} JoinSpaced(rs: seq<string>)
    requires rs != []
    ensures Join(Spaced(rs), ",") == " " + Join(rs, ", ")
  {
    if |rs| == 1 {
      assert Spaced(rs[1..]) == [];
      assert Spaced(rs) == [" " + rs[0]];
    } else {
      JoinSpaced(rs[1..]);
      SpacedTexts(rs[0], Join(rs[1..], ", "));
      assert Spaced(rs)[1..] == Spaced(rs[1..]);
    }
  }

  lemma SpacedTexts(first: string, rest: string)
    ensures " " + first + "," + (" " + rest) == " " + (first + ", " + rest)
    ensures first + "," + (" " + rest) == first + ", " + rest
  {
    assert ", " == "," + " ";
  }

  /** Relations that a list keeps apart: without commas and leading blanks. */
  ghost predicate Listable(rs: seq<string>)
  {
    forall i :: 0 <= i < |rs| ==> ',' !in rs[i] && (rs[i] == "" || rs[i][0] != ' ')
  }

  lemma {:induction false} DropSpaced(rs: seq<string>)
    requires Listable(rs)
    ensures DropBlanksAll(Spaced(rs)) == rs
  {
    if rs != [] {
      DropSpaced(rs[1..]);
      assert (" " + rs[0])[1..] == rs[0];
      assert DropBlanks(" " + rs[0]) == DropBlanks(rs[0]) == rs[0];
      assert Spaced(rs)[1..] == Spaced(rs[1..]);
    }
  }

  lemma {:induction false} CanonicalFixed(rs: seq<string>)
    requires GoodRelations(rs)
    ensures CanonicalRelations(rs) == rs
  {
    if rs != [] {
      CanonicalFixed(rs[1..]);
      TrimSpaceFixed(rs[0]);
    }
  }

  /** The pieces of a joined list. */
  function Pieces(rs: seq<string>): seq<string>
    requires rs != []
  {
    [rs[0]] + Spaced(rs[1..])
  }

  lemma JoinedPieces(rs: seq<string>)
    requires rs != [] && Free(rs, ',')
    ensures Join(Pieces(rs), ",") == Join(rs, ", ")
    ensures Split(Join(rs, ", "), ',') == Pieces(rs)
  {
    if |rs| == 1 {
      assert Spaced(rs[1..]) == [] && [rs[0]] + [] == [rs[0]];
    } else {
      JoinSpaced(rs[1..]);
      SpacedTexts(rs[0], Join(rs[1..], ", "));
      assert Pieces(rs)[1..] == Spaced(rs[1..]);
    }
    SpacedFree(rs[1..]);
    assert Free(Pieces(rs), ',');
    assert "," == [','];
    SplitOfJoin(Pieces(rs), ',');
  }

  /** A printed list reads back relation by relation. */
  lemma ParseListed(rs: seq<string>)
    requires Listable(rs) && Join(rs, ", ") != ""
    ensures ParseDependencies(Join(rs, ", ")) == CanonicalRelations(rs)
  {
    JoinedPieces(rs);
    DropSpaced(rs[1..]);
    assert TrimmedTails(Pieces(rs)) == [rs[0]] + rs[1..] == rs;
  }

  /** The list printed from good relations reads back as that list. */
  lemma ParseJoined(rs: seq<string>)
    requires GoodRelations(rs) && Join(rs, ", ") != ""
    ensures ParseDependencies(Join(rs, ", ")) == rs
  {
    forall i | 0 <= i < |rs| ensures ',' !in rs[i] && (rs[i] == "" || rs[i][0] != ' ') { assert GoodRelation(rs[i]); }
    ParseListed(rs);
    CanonicalFixed(rs);
  }

  /** Lists of relations without commas that join to the same text are the same. */
  lemma JoinedInjective(a: seq<string>, b: seq<string>)
    requires a != [] && b != [] && Free(a, ',') && Free(b, ',') && Join(a, ", ") == Join(b, ", ")
    ensures a == b
  {
    JoinedPieces(a);
    JoinedPieces(b);
    assert Pieces(a) == Pieces(b);
    assert a[0] == Pieces(a)[0] && b[0] == Pieces(b)[0];
    assert Spaced(a[1..]) == Pieces(a)[1..] && Spaced(b[1..]) == Pieces(b)[1..];
    SpacedInjective(a[1..], b[1..]);
    assert a == [a[0]] + a[1..] && b == [b[0]] + b[1..];
  }

  lemma {:induction false} SpacedInjective(a: seq<string>, b: seq<string>)
    requires Spaced(a) == Spaced(b)
    ensures a == b
  {
    if a != [] {
      assert (" " + a[0])[1..] == a[0] && (" " + b[0])[1..] == b[0];
      assert Spaced(a)[1..] == Spaced(a[1..]) && Spaced(b)[1..] == Spaced(b[1..]);
      SpacedInjective(a[1..], b[1..]);
    }
  }

  // ---------------------------------------------------------------- what a list yields

  lemma {:induction false} DropBlanksFree(s: string, c: char)
    requires c !in s
    ensures c !in DropBlanks(s) && (DropBlanks(s) == "" || DropBlanks(s)[0] != ' ')
  {
    if s != "" && s[0] == ' ' { DropBlanksFree(s[1..], c); }
  }

  /** Trimming a text leaves it trimmed. */
  lemma TrimSpaceTrimmed(s: string)
    ensures Trimmed(TrimSpace(s))
  {
    if TrimLeft(s) != "" { TrimRightKeepsFirst(TrimLeft(s)); }
  }

  lemma CanonicalGood(part: string)
    requires ',' !in part
    ensures GoodRelation(if WellFormedRelation(part) then TrimSpace(part) else part) <==> part == "" || part[0] != ' '
  {
    TrimSpaceFree(part, ',');
    TrimSpaceTrimmed(part);
  }

  lemma {:induction false} CanonicalAllGood(parts: seq<string>)
    requires forall i :: 0 <= i < |parts| ==> ',' !in parts[i]
    ensures GoodRelations(CanonicalRelations(parts)) <==> forall i :: 0 <= i < |parts| ==> parts[i] == "" || parts[i][0] != ' '
  {
    if parts != [] {
      CanonicalGood(parts[0]);
      CanonicalAllGood(parts[1..]);
      var first := if WellFormedRelation(parts[0]) then TrimSpace(parts[0]) else parts[0];
      var rest := CanonicalRelations(parts[1..]);
      assert CanonicalRelations(parts) == [first] + rest;
      if GoodRelations([first] + rest) {
        assert ([first] + rest)[0] == first;
        forall i | 0 <= i < |rest| ensures GoodRelation(rest[i]) { assert ([first] + rest)[i + 1] == rest[i]; }
        forall i | 0 <= i < |parts| ensures parts[i] == "" || parts[i][0] != ' ' {
          if i > 0 { assert parts[i] == parts[1..][i - 1]; }
        }
      }
    }
  }

  lemma {:induction false} DropBlanksAllFree(parts: seq<string>)
    requires Free(parts, ',')
    ensures forall i :: 0 <= i < |parts| ==>
              ',' !in DropBlanksAll(parts)[i] && (DropBlanksAll(parts)[i] == "" || DropBlanksAll(parts)[i][0] != ' ')
  {
    if parts != [] {
      DropBlanksFree(parts[0], ',');
      DropBlanksAllFree(parts[1..]);
    }
  }

  /** A value yields good relations if and only if it does not start with a blank. */
  lemma ParsedGood(value: string)
    ensures GoodRelations(ParseDependencies(value)) <==> value == "" || value[0] != ' '
  {
    if value != "" {
      var parts := Split(value, ',');
      SplitFree(value, ',');
      DropBlanksAllFree(parts[1..]);
      CanonicalAllGood(TrimmedTails(parts));
      SplitHead(value);
    }
  }

  /** The first piece of a value starts as the value does. */
  lemma SplitHead(value: string)
    requires value != ""
    ensures var first := Split(value, ',')[0]; if value[0] == ',' then first == "" else first != "" && first[0] == value[0]
  {
  }

  // --------------------------------------------------------------- characters kept out

  lemma {:induction false} DashesFree(s: string, c: char)
    requires c !in s && c != '-'
    ensures c !in Dashes(s)
  {
    if s != "" { DashesFree(s[1..], c); }
  }

  lemma {:induction false} ReplaceFirstFree(s: string, from: string, to: string, c: char)
    requires c !in s && c !in to
    ensures c !in ReplaceFirst(s, from, to)
  {
    if !HasPrefix(s, from) && s != "" { ReplaceFirstFree(s[1..], from, to, c); }
  }

  lemma {:induction false} TrimRightCutFree(s: string, c: char)
    requires c !in s
    ensures c !in TrimRightCut(s)
  {
    if s != "" && CutSpace(s[|s| - 1]) { TrimRightCutFree(s[..|s| - 1], c); }
  }

  lemma OperatorFormFree(d: string, c: char)
    requires c !in d && c in {',', '\r', '\n'}
    ensures c !in OperatorForm(d)
  {
    if OperatorForm(d) != d {
      WordsFree(d, c);
      var words := Words(d);
      assert c !in words[0] && c !in words[1] && c !in words[2];
      assert c !in Debianize(words[1]);
    }
  }

  lemma PrepareFree(d: string, c: char)
    requires c !in d && c in {',', '\r', '\n'}
    ensures c !in Prepare(d)
  {
    var o := OperatorForm(d);
    OperatorFormFree(d, c);
    LowerAllFree(o[..PrefixNotOf(o, {' ', '('})], c);
    assert c !in LowerName(o);
    DashesFree(LowerName(o), c);
  }

  lemma BoundWithout(name: string, version: string, upper: seq<int>, c: char)
    requires c !in name && c !in version && c in {',', '\r', '\n'}
    ensures Free(Bounds(name, version, upper), c)
  {
    NumberTextFree(upper, c);
  }

  /** Printing a dependency brings in neither a comma nor a carriage return. */
  lemma NormalizeFree(d: string, ignoreIteration: bool, c: char)
    requires c !in d && c in {',', '\r', '\n'}
    ensures Free(Normalize(d, ignoreIteration).0, c) && c !in Normalize(d, ignoreIteration).1
  {
    var s := Prepare(d);
    PrepareFree(d, c);
    if Pessimistic(s).Some? {
      var (name, version) := Pessimistic(s).value;
      StripFree(s, c);
      WordsFree(Strip(s), c);
      BoundWithout(name, version, PessimisticBound(NumericVersion(version)), c);
    } else if MatchConstraint(s, "!=").Some? {
      ReplaceFirstFree(s, "!=", "=", c);
    } else if ignoreIteration && MatchConstraint(s, "=").Some? {
      var (name, version) := MatchConstraint(s, "=").value;
      assert c !in name && c !in version by { ExactParts(s, c); }
      BoundWithout(name, version, ExtensionBound(NumericVersion(version)), c);
    } else {
      TrimRightCutFree(s, c);
    }
  }

  lemma ExactParts(s: string, c: char)
    requires MatchConstraint(s, "=").Some? && c !in s
    ensures var (name, version) := MatchConstraint(s, "=").value; c !in name && c !in version
  {
  }

  lemma {:induction false} PrintedFree(ds: seq<string>, ignoreIteration: bool, c: char)
    requires Free(ds, c) && c in {',', '\r', '\n'}
    ensures Free(PrintedRelations(ds, ignoreIteration), c) && Free(PrintedConflicts(ds, ignoreIteration), c)
  {
    if ds != [] {
      NormalizeFree(ds[0], ignoreIteration, c);
      PrintedFree(ds[1..], ignoreIteration, c);
    }
  }

  lemma {:induction false} CanonicalFree(parts: seq<string>, c: char)
    requires Free(parts, c)
    ensures Free(CanonicalRelations(parts), c)
  {
    if parts != [] {
      TrimSpaceFree(parts[0], c);
      CanonicalFree(parts[1..], c);
    }
  }

  lemma {:induction false} DroppedFree(parts: seq<string>, c: char)
    requires Free(parts, c)
    ensures Free(DropBlanksAll(parts), c)
  {
    if parts != [] {
      DropBlanksFree(parts[0], c);
      DroppedFree(parts[1..], c);
    }
  }

  lemma ParseFree(value: string, c: char)
    requires c !in value
    ensures Free(ParseDependencies(value), c)
  {
    if value != "" {
      SplitChars(value, ',', c);
      var parts := Split(value, ',');
      DroppedFree(parts[1..], c);
      CanonicalFree(TrimmedTails(parts), c);
    }
  }

  // ------------------------------------------------------------- printing good relations

  /** The characters the relation pattern looks at. */
  const MARKS: set<char> := {' ', '(', ')', '>', '=', '<'}

  ghost predicate SameMarks(a: string, b: string)
  {
    |a| == |b| && forall i :: 0 <= i < |a| && (a[i] in MARKS || b[i] in MARKS) ==> a[i] == b[i]
  }

  lemma {:induction false} MarksPrefixNotOf(a: string, b: string, stops: set<char>)
    requires SameMarks(a, b) && stops <= MARKS
    ensures PrefixNotOf(a, stops) == PrefixNotOf(b, stops)
  {
    if a != "" && a[0] !in stops {
      assert b[0] !in stops;
      MarksPrefixNotOf(a[1..], b[1..], stops);
    }
  }

  lemma {:induction false} MarksPrefixOf(a: string, b: string, allowed: set<char>)
    requires SameMarks(a, b) && allowed <= MARKS
    ensures PrefixOf(a, allowed) == PrefixOf(b, allowed)
  {
    if a != "" && a[0] in allowed { MarksPrefixOf(a[1..], b[1..], allowed); }
  }

  lemma MarksSuffix(a: string, b: string, k: nat)
    requires SameMarks(a, b) && k <= |a|
    ensures SameMarks(a[k..], b[k..])
  {
  }

  /** The part of the relation pattern after the name and the opening parenthesis. */
  predicate WellFormedConstraint(rest: string)
  {
    var k := PrefixOf(rest, {'>', '=', '<'});
    && k > 0 && k < |rest| && rest[k] == ' ' && |rest| - k >= 3
    && PrefixNotOf(rest[k + 1..], {')'}) == |rest| - k - 2
  }

  lemma ConstraintForm(s: string)
    ensures var n := PrefixNotOf(s, {' '});
            WellFormedRelation(s) <==> n > 0 && (n == |s| || (|s| >= n + 2 && s[n + 1] == '(' && WellFormedConstraint(s[n + 2..])))
  {
    var n := PrefixNotOf(s, {' '});
    if n + 2 <= |s| { assert HasPrefix(s[n..], " (") <==> s[n] == ' ' && s[n + 1] == '('; }
  }

  lemma MarksConstraint(a: string, b: string)
    requires SameMarks(a, b) && WellFormedConstraint(a)
    ensures WellFormedConstraint(b)
  {
    MarksPrefixOf(a, b, {'>', '=', '<'});
    var k := PrefixOf(a, {'>', '=', '<'});
    assert b[k] == a[k];
    MarksSuffix(a, b, k + 1);
    MarksPrefixNotOf(a[k + 1..], b[k + 1..], {')'});
  }

  /** The relation pattern matches texts with the same marks alike. */
  lemma MarksWellFormed(a: string, b: string)
    requires SameMarks(a, b) && WellFormedRelation(a)
    ensures WellFormedRelation(b)
  {
    ConstraintForm(a);
    ConstraintForm(b);
    MarksPrefixNotOf(a, b, {' '});
    var n := PrefixNotOf(a, {' '});
    if n < |a| {
      assert b[n + 1] == a[n + 1];
      MarksSuffix(a, b, n + 2);
      MarksConstraint(a[n + 2..], b[n + 2..]);
    }
  }

  lemma RewrittenMarks(s: string)
    ensures SameMarks(s, Dashes(LowerName(s)))
  {
    var t := Dashes(LowerName(s));
    RewrittenShape(s);
    forall i | 0 <= i < |s| && (s[i] in MARKS || t[i] in MARKS) ensures s[i] == t[i] { RewrittenAt(s, i); }
  }

  /** A bound of a name without blanks at its ends is trimmed. */
  lemma BoundTrimmed(name: string, operator: string, version: string)
    requires name != ""
    ensures Trimmed(Bound(name, operator, version)) <==> !IsSpace(name[0])
  {
    BoundText(name, operator, version);
  }

  /** A numeric bound always has the form of a relation. */
  lemma UpperWellFormed(name: string, upper: seq<int>)
    requires name != "" && ' ' !in name && upper != []
    ensures WellFormedRelation(Bound(name, "<<", JoinNumericVersion(upper)))
  {
    var number := JoinNumericVersion(upper);
    var e := Bound(name, "<<", number);
    var tail := Tail("<<", number);
    BoundText(name, "<<", number);
    PrefixNotOfSplit(name, ' ', tail, {' '});
    NumberTextFree(upper, ')');
    NumberNonEmpty(upper);
    UpperTail(number);
    assert e[|name| + 2..] == "<< " + number + ")";
    assert e[|name|..][..2] == " (";
  }

  lemma UpperTail(number: string)
    requires ')' !in number
    ensures var rest := "<< " + number + ")";
            && PrefixOf(rest, {'>', '=', '<'}) == 2 && rest[2] == ' '
            && rest[3..] == number + ")" && PrefixNotOf(rest[3..], {')'}) == |number|
  {
    var rest := "<< " + number + ")";
    assert rest[0] == '<' && rest[1] == '<' && rest[2] == ' ';
    assert PrefixOf(rest, {'>', '=', '<'}) == 2 by {
      assert PrefixOf(rest[1..][1..], {'>', '=', '<'}) == 0;
      assert PrefixOf(rest[1..], {'>', '=', '<'}) == 1;
    }
    assert rest[3..] == number + [')'] + "";
    PrefixNotOfSplit(number, ')', "", {')'});
  }

  lemma NumberNonEmpty(numbers: seq<int>)
    requires numbers != []
    ensures JoinNumericVersion(numbers) != ""
  {
    NumberPlain(numbers);
  }

  /** The branch that expands an exact version. */
  predicate Expands(d: string, ignoreIteration: bool)
  {
    var s := Prepare(d);
    Pessimistic(s).None? && MatchConstraint(s, "!=").None? && ignoreIteration && MatchConstraint(s, "=").Some?
  }

  /** The branch that turns a dependency into a conflict and prints no relation. */
  predicate Inequality(d: string)
  {
    Pessimistic(Prepare(d)).None? && MatchConstraint(Prepare(d), "!=").Some?
  }

  /** The branch that prints a relation as it is, but for blanks at its end. */
  predicate Plain(d: string, ignoreIteration: bool)
  {
    Pessimistic(Prepare(d)).None? && !Rewritten(Prepare(d), ignoreIteration)
  }

  /**
   The guards of a dependency whose relations read back from a list: blanks that are not
   plain ones, such as a tab before a name, are lost on reading if all else is well formed.
   */
  predicate Reads(d: string, ignoreIteration: bool)
  {
    var s := Prepare(d);
    && (Expands(d, ignoreIteration) ==> !IsSpace(MatchConstraint(s, "=").value.0[0]))
    && (Plain(d, ignoreIteration) && WellFormedRelation(TrimRightCut(s)) ==> Trimmed(TrimRightCut(s)))
  }

  /** The guards of a dependency that settles in a list. */
  predicate Lasts(d: string, ignoreIteration: bool)
  {
    Settles(d, ignoreIteration, false) && Reads(d, ignoreIteration)
  }

  lemma PairGood(name: string, version: string, upper: seq<int>)
    requires name != "" && ' ' !in name && ',' !in name && ',' !in version && upper != []
    ensures GoodRelations(Bounds(name, version, upper)) <==> !IsSpace(name[0])
  {
    var number := JoinNumericVersion(upper);
    var lower, above := Bound(name, ">=", version), Bound(name, "<<", number);
    BoundWithout(name, version, upper, ',');
    assert Bounds(name, version, upper)[0] == lower && Bounds(name, version, upper)[1] == above;
    BoundText(name, ">=", version);
    BoundText(name, "<<", number);
    BoundTrimmed(name, ">=", version);
    BoundTrimmed(name, "<<", number);
    UpperWellFormed(name, upper);
  }

  lemma PessimisticGood(s: string)
    requires Pessimistic(s).Some? && ',' !in s
    ensures var (name, version) := Pessimistic(s).value;
            GoodRelations(Bounds(name, version, PessimisticBound(NumericVersion(version))))
  {
    var (name, version) := Pessimistic(s).value;
    StripFree(s, ',');
    WordsFree(Strip(s), ',');
    WordsAreWords(Strip(s));
    assert !IsSpace(name[0]);
    PairGood(name, version, PessimisticBound(NumericVersion(version)));
  }

  /** A relation without leading blank stays one when blanks are cut off its end. */
  lemma {:induction false} CutOffStart(s: string)
    ensures TrimRightCut(s) == "" || (s != "" && TrimRightCut(s)[0] == s[0])
    ensures ',' !in s ==> ',' !in TrimRightCut(s)
  {
    if s != "" && CutSpace(s[|s| - 1]) { CutOffStart(s[..|s| - 1]); }
  }

  /** What a good relation prints are good relations exactly when the guards hold. */
  lemma PrintedGood(d: string, ignoreIteration: bool)
    requires GoodRelation(d)
    ensures GoodRelations(Normalize(d, ignoreIteration).0) <==> Reads(d, ignoreIteration)
  {
    var s := Prepare(d);
    PrepareFree(d, ',');
    if Pessimistic(s).Some? {
      PessimisticGood(s);
    } else if MatchConstraint(s, "!=").Some? {
    } else if ignoreIteration && MatchConstraint(s, "=").Some? {
      var (name, version) := MatchConstraint(s, "=").value;
      ExactParts(s, ',');
      NameSpaceless(s);
      PairGood(name, version, ExtensionBound(NumericVersion(version)));
    } else {
      PreparedGood(d);
      CutOffStart(s);
      OneGood(TrimRightCut(s));
    }
  }

  lemma OneGood(r: string)
    ensures GoodRelations([r]) <==> GoodRelation(r)
  {
    if GoodRelations([r]) { assert [r][0] == r; }
  }

  /** Preparing keeps a relation good. */
  lemma PreparedGood(d: string)
    requires GoodRelation(d)
    ensures GoodRelation(Prepare(d))
  {
    var o, s := OperatorForm(d), Prepare(d);
    PrepareFree(d, ',');
    RewrittenMarks(o);
    RewrittenShape(o);
    if s != "" { RewrittenAt(o, 0); RewrittenAt(o, |o| - 1); }
    if o == d {
      if WellFormedRelation(s) {
        SameMarksBack(d, s);
        MarksWellFormed(s, d);
      }
    } else {
      var words := Words(d);
      WordsAreWords(d);
      assert !IsSpace(words[0][0]);
    }
  }

  lemma SameMarksBack(a: string, b: string)
    requires SameMarks(a, b)
    ensures SameMarks(b, a)
  {
  }

  // ------------------------------------------------------------------ printing again

  ghost predicate NoTrailingBlanks(ds: seq<string>)
  {
    forall i :: 0 <= i < |ds| ==> NoTrailingBlank(ds[i])
  }

  /** A relation that a list keeps apart and that prints a relation again. */
  predicate Reprintable(r: string)
  {
    ',' !in r && (r == "" || r[0] != ' ') && NoTrailingBlank(r) && Normalize(r, false).0 != []
  }

  ghost predicate Printable(rs: seq<string>)
  {
    forall i :: 0 <= i < |rs| ==> Reprintable(rs[i])
  }

  lemma PrintableListable(rs: seq<string>)
    requires Printable(rs)
    ensures Listable(rs) && NoTrailingBlanks(rs) && AllPrint(rs)
  {
    forall i | 0 <= i < |rs|
      ensures ',' !in rs[i] && (rs[i] == "" || rs[i][0] != ' ') && NoTrailingBlank(rs[i]) && Normalize(rs[i], false).0 != [] {
      assert Reprintable(rs[i]);
    }
  }

  lemma PrintedBound(s: string, name: string, operator: string, version: string)
    requires Prepare(s) == s && name <= s && name != "" && Spaceless(name)
    requires '_' !in name && '_' !in version && operator in {">=", "<<"}
    ensures Normalize(Bound(name, operator, version), false).0 != []
  {
    PreparedBound(s, name, operator, version);
    BoundNotConstraint(name, operator, version, "!=");
  }

  lemma JoinedFree(a: string, b: string, c: char)
    requires c !in a && c !in b
    ensures c !in a + b
  {
  }

  lemma TailFree(operator: string, version: string)
    requires ',' !in version && operator in {">=", "<<"}
    ensures ',' !in Tail(operator, version)
  {
    JoinedFree("(" + operator, " ", ',');
    JoinedFree("(" + operator + " ", version, ',');
    JoinedFree("(" + operator + " " + version, ")", ',');
  }

  lemma BoundPrintable(name: string, operator: string, version: string)
    requires name != "" && name[0] != ' ' && ',' !in name && ',' !in version && operator in {">=", "<<"}
    requires Normalize(Bound(name, operator, version), false).0 != []
    ensures Reprintable(Bound(name, operator, version))
  {
    BoundText(name, operator, version);
    TailFree(operator, version);
    JoinedFree(name, [' '], ',');
    JoinedFree(name + [' '], Tail(operator, version), ',');
    assert Bound(name, operator, version)[0] == name[0];
  }

  lemma BoundsPair(name: string, version: string, upper: seq<int>)
    ensures var pair := Bounds(name, version, upper);
            |pair| == 2 && pair[0] == Bound(name, ">=", version) && pair[1] == Bound(name, "<<", JoinNumericVersion(upper))
  {
  }

  lemma PairPrintable(lower: string, above: string, pair: seq<string>)
    requires Reprintable(lower) && Reprintable(above) && |pair| == 2 && pair[0] == lower && pair[1] == above
    ensures Printable(pair)
  {
    PairHolds(r => Reprintable(r), lower, above, pair);
  }

  lemma PairHolds(holds: string -> bool, a: string, b: string, pair: seq<string>)
    requires holds(a) && holds(b) && |pair| == 2 && pair[0] == a && pair[1] == b
    ensures forall i :: 0 <= i < |pair| ==> holds(pair[i])
  {
  }

  lemma PessimisticPrintable(s: string)
    requires Pessimistic(s).Some? && '_' !in s && ',' !in s
    ensures var (name, version) := Pessimistic(s).value;
            Printable(Bounds(name, version, PessimisticBound(NumericVersion(version))))
  {
    var (name, version) := Pessimistic(s).value;
    var upper := PessimisticBound(NumericVersion(version));
    PessimisticParts(s);
    StripFree(s, ',');
    WordsFree(Strip(s), ',');
    NumberTextFree(upper, '_');
    NumberTextFree(upper, '~');
    NumberTextFree(upper, ',');
    assert !IsSpace(name[0]);
    BoundPrints(name, ">=", version, false);
    BoundPrints(name, "<<", JoinNumericVersion(upper), false);
    BoundPrintable(name, ">=", version);
    BoundPrintable(name, "<<", JoinNumericVersion(upper));
    BoundsPair(name, version, upper);
    PairPrintable(Bound(name, ">=", version), Bound(name, "<<", JoinNumericVersion(upper)), Bounds(name, version, upper));
  }

  lemma ExpandedPrintable(s: string)
    requires MatchConstraint(s, "=").Some? && Prepare(s) == s && '_' !in s && ',' !in s
    ensures var (name, version) := MatchConstraint(s, "=").value;
            Printable(Bounds(name, version, ExtensionBound(NumericVersion(version))))
  {
    var (name, version) := MatchConstraint(s, "=").value;
    var upper := ExtensionBound(NumericVersion(version));
    ExactParts(s, ',');
    ExactParts(s, '_');
    NameSpaceless(s);
    NumberTextFree(upper, '_');
    NumberTextFree(upper, ',');
    PrintedBound(s, name, ">=", version);
    PrintedBound(s, name, "<<", JoinNumericVersion(upper));
    BoundPrintable(name, ">=", version);
    BoundPrintable(name, "<<", JoinNumericVersion(upper));
    BoundsPair(name, version, upper);
    PairPrintable(Bound(name, ">=", version), Bound(name, "<<", JoinNumericVersion(upper)), Bounds(name, version, upper));
  }

  lemma PrintedPrintable(d: string, ignoreIteration: bool)
    requires GoodRelation(d) && (Plain(d, ignoreIteration) ==> NoTrailingBlank(d) && !ignoreIteration)
    ensures Printable(Normalize(d, ignoreIteration).0)
  {
    var s := Prepare(d);
    PrepareFree(d, ',');
    PrepareIdempotent(d);
    PrepareHasNoUnderscore(d);
    if Pessimistic(s).Some? {
      PessimisticPrintable(s);
    } else if MatchConstraint(s, "!=").Some? {
    } else if ignoreIteration && MatchConstraint(s, "=").Some? {
      ExpandedPrintable(s);
    } else {
      PrepareKeepsEnd(d);
      assert TrimRightCut(s) == s;
      PreparedGood(d);
    }
  }

  lemma {:induction false} AllPrintable(ds: seq<string>)
    requires GoodRelations(ds) && NoTrailingBlanks(ds)
    ensures Printable(PrintedRelations(ds, false))
  {
    if ds != [] {
      PrintedPrintable(ds[0], false);
      AllPrintable(ds[1..]);
    }
  }

  /** Relations that a list keeps apart, without blanks at their ends. */
  ghost predicate Neat(rs: seq<string>)
  {
    Listable(rs) && NoTrailingBlanks(rs)
  }

  lemma PrintedNeat(d: string, ignoreIteration: bool)
    requires GoodRelation(d)
    ensures Neat(Normalize(d, ignoreIteration).0)
  {
    if Plain(d, ignoreIteration) {
      var s := Prepare(d);
      PrepareIdempotent(d);
      PreparedCutOff(s);
      PreparedGood(d);
      CutOffStart(s);
    } else {
      PrintedPrintable(d, ignoreIteration);
      PrintableListable(Normalize(d, ignoreIteration).0);
    }
  }

  lemma {:induction false} AllNeat(ds: seq<string>, ignoreIteration: bool)
    requires GoodRelations(ds)
    ensures Neat(PrintedRelations(ds, ignoreIteration))
  {
    if ds != [] {
      PrintedNeat(ds[0], ignoreIteration);
      AllNeat(ds[1..], ignoreIteration);
    }
  }

  /** The first relations of a list, when there are enough behind them. */
  lemma OneInFront(rs: seq<string>, first: seq<string>, rest: seq<string>)
    requires rs != [] && first != [] && |rest| >= |rs| - 1
    ensures first + rest == rs <==> first == [rs[0]] && rest == rs[1..]
  {
    if first + rest == rs {
      assert |first| == 1 && first[0] == rs[0];
      assert rs[1..] == rest;
    }
  }

  ghost predicate AllPrint(rs: seq<string>)
  {
    forall i :: 0 <= i < |rs| ==> Normalize(rs[i], false).0 != []
  }

  /** Relations that all print at least one each, and together themselves, print themselves one by one. */
  lemma {:induction false} PrintedOneByOne(rs: seq<string>)
    requires AllPrint(rs)
    ensures |PrintedRelations(rs, false)| >= |rs|
    ensures PrintedRelations(rs, false) == rs <==> AllFixed(rs, false)
  {
    if rs != [] {
      PrintedOneByOne(rs[1..]);
      OneInFront(rs, Normalize(rs[0], false).0, PrintedRelations(rs[1..], false));
      FixedCons(rs);
    }
  }

  lemma FixedCons(rs: seq<string>)
    requires rs != [] && Normalize(rs[0], false).0 != []
    ensures AllFixed(rs, false) <==> Normalize(rs[0], false).0 == [rs[0]] && AllFixed(rs[1..], false)
  {
    if AllFixed(rs[1..], false) && Normalize(rs[0], false).0 == [rs[0]] {
      forall i | 0 <= i < |rs| ensures Normalize(rs[i], false) == ([rs[i]], "") {
        if i > 0 { assert rs[i] == rs[1..][i - 1]; }
      }
    }
  }

  lemma OneLasts(d: string, ignoreIteration: bool)
    requires GoodRelation(d)
    ensures var printed := Normalize(d, ignoreIteration).0;
            GoodRelations(printed) && AllFixed(printed, false) <==> Lasts(d, ignoreIteration)
  {
    PrintedGood(d, ignoreIteration);
    PrintedRelationsSettle(d, ignoreIteration, false);
  }

  ghost predicate AllLast(ds: seq<string>, ignoreIteration: bool)
  {
    forall i :: 0 <= i < |ds| ==> Lasts(ds[i], ignoreIteration)
  }

  lemma AllLastCons(ds: seq<string>, ignoreIteration: bool)
    requires ds != []
    ensures AllLast(ds, ignoreIteration) <==> Lasts(ds[0], ignoreIteration) && AllLast(ds[1..], ignoreIteration)
  {
    HoldsCons(ds, d => Lasts(d, ignoreIteration));
  }

  lemma HoldsCons<T>(items: seq<T>, holds: T -> bool)
    requires items != []
    ensures (forall i :: 0 <= i < |items| ==> holds(items[i])) <==>
            holds(items[0]) && forall i :: 0 <= i < |items[1..]| ==> holds(items[1..][i])
  {
    forall i | 0 < i < |items| ensures items[i] == items[1..][i - 1] {}
  }

  /** A list of dependencies prints relations that stay as they are exactly when each of the dependencies lasts. */
  lemma {:induction false} EachLasts(ds: seq<string>, ignoreIteration: bool)
    requires GoodRelations(ds)
    ensures var rs := PrintedRelations(ds, ignoreIteration);
            GoodRelations(rs) && AllFixed(rs, false) <==> AllLast(ds, ignoreIteration)
  {
    if ds != [] {
      EachLasts(ds[1..], ignoreIteration);
      OneLasts(ds[0], ignoreIteration);
      SplitLasting(Normalize(ds[0], ignoreIteration).0, PrintedRelations(ds[1..], ignoreIteration));
      AllLastCons(ds, ignoreIteration);
    }
  }

  lemma SplitLasting(a: seq<string>, b: seq<string>)
    ensures GoodRelations(a + b) && AllFixed(a + b, false) <==>
            GoodRelations(a) && AllFixed(a, false) && GoodRelations(b) && AllFixed(b, false)
  {
    if GoodRelations(a + b) && AllFixed(a + b, false) {
      forall i | 0 <= i < |a| ensures GoodRelation(a[i]) && Normalize(a[i], false) == ([a[i]], "") { assert a[i] == (a + b)[i]; }
      forall i | 0 <= i < |b| ensures GoodRelation(b[i]) && Normalize(b[i], false) == ([b[i]], "") { assert b[i] == (a + b)[|a| + i]; }
    }
  }

  lemma {:induction false} CanonicalEnds(rs: seq<string>)
    requires NoTrailingBlanks(rs)
    ensures NoTrailingBlanks(CanonicalRelations(rs))
  {
    if rs != [] {
      CanonicalEnds(rs[1..]);
      TrimSpaceTrimmed(rs[0]);
    }
  }

  /**
   A Depends line that is not empty is printed again as it was, exactly when each of
   the dependencies it was printed from lasts.
   */
  lemma DependsLineFixed(ds: seq<string>, ignoreIteration: bool)
    requires GoodRelations(ds) && Join(PrintedRelations(ds, ignoreIteration), ", ") != ""
    ensures var text := Join(PrintedRelations(ds, ignoreIteration), ", ");
            Join(PrintedRelations(ParseDependencies(text), false), ", ") == text <==>
            AllLast(ds, ignoreIteration)
  {
    var rs := PrintedRelations(ds, ignoreIteration);
    var text := Join(rs, ", ");
    AllNeat(ds, ignoreIteration);
    EachLasts(ds, ignoreIteration);
    if GoodRelations(rs) && AllFixed(rs, false) {
      ParseJoined(rs);
      PrintedOneByOne(rs);
    } else if Join(PrintedRelations(ParseDependencies(text), false), ", ") == text {
      ReprintedGood(rs);
    }
  }

  /** A list that reads back and prints as itself is a list of good relations that print as themselves. */
  lemma ReprintedGood(rs: seq<string>)
    requires Neat(rs) && Join(rs, ", ") != ""
    requires Join(PrintedRelations(ParseDependencies(Join(rs, ", ")), false), ", ") == Join(rs, ", ")
    ensures GoodRelations(rs) && AllFixed(rs, false)
  {
    var es := CanonicalRelations(rs);
    var ps := PrintedRelations(es, false);
    ParseListed(rs);
    CanonicalAllGood(rs);
    CanonicalEnds(rs);
    AllPrintable(es);
    PrintableListable(ps);
    JoinedInjective(rs, ps);
    AllPrintedGood(es);
    CanonicalFixed(rs);
    PrintedOneByOne(rs);
  }

  /** Relations printed from good ones without blanks at their ends are good again. */
  lemma {:induction false} AllPrintedGood(es: seq<string>)
    requires GoodRelations(es) && NoTrailingBlanks(es)
    ensures GoodRelations(PrintedRelations(es, false))
  {
    if es != [] {
      GoodEndsRead(es[0]);
      PrintedGood(es[0], false);
      AllPrintedGood(es[1..]);
    }
  }

  lemma GoodEndsRead(d: string)
    requires GoodRelation(d) && NoTrailingBlank(d)
    ensures Reads(d, false)
  {
    PrepareKeepsEnd(d);
    PreparedGood(d);
    assert TrimRightCut(Prepare(d)) == Prepare(d);
  }

  // --------------------------------------------------------------- the empty Depends line

  /** The dependencies that print a relation. */
  function Shown(ds: seq<string>): seq<string>
  {
    if ds == [] then [] else (if Inequality(ds[0]) then [] else [ds[0]]) + Shown(ds[1..])
  }

  /** A text of nothing but blanks that the printer cuts off. */
  predicate OnlyCut(s: string)
  {
    forall i :: 0 <= i < |s| ==> CutSpace(s[i])
  }

  lemma {:induction false} TrimCutEmpty(s: string)
    ensures TrimRightCut(s) == "" <==> OnlyCut(s)
  {
    if s != "" && CutSpace(s[|s| - 1]) {
      TrimCutEmpty(s[..|s| - 1]);
      if OnlyCut(s[..|s| - 1]) {
        forall i | 0 <= i < |s| ensures CutSpace(s[i]) { if i < |s| - 1 { assert s[..|s| - 1][i] == s[i]; } }
      }
    }
  }

  lemma {:induction false} OnlyCutTrimmed(d: string)
    requires OnlyCut(d)
    ensures TrimLeft(d) == ""
  {
    if d != "" { OnlyCutTrimmed(d[1..]); }
  }

  /** Preparing neither adds nor removes text that is not blank. */
  lemma PreparedCut(d: string)
    ensures OnlyCut(Prepare(d)) <==> OnlyCut(d)
  {
    var o, s := OperatorForm(d), Prepare(d);
    RewrittenShape(o);
    if o != d {
      assert '(' == o[|Words(d)[0]| + 1];
      assert s[|Words(d)[0]| + 1] == '(';
      if OnlyCut(d) { OnlyCutTrimmed(d); }
    } else {
      forall i | 0 <= i < |d| ensures CutSpace(s[i]) <==> CutSpace(d[i]) { RewrittenAt(d, i); }
    }
  }

  /** A dependency prints nothing if it is an inequality, and an empty relation if it is blank. */
  lemma PrintsNothing(d: string, ignoreIteration: bool)
    ensures Normalize(d, ignoreIteration).0 == [] <==> Inequality(d)
    ensures Join(Normalize(d, ignoreIteration).0, ", ") == "" <==> Inequality(d) || OnlyCut(d)
  {
    var s := Prepare(d);
    PreparedCut(d);
    TrimCutEmpty(s);
    if OnlyCut(d) {
      OnlyCutParts(s);
    }
  }

  lemma OnlyCutParts(s: string)
    requires OnlyCut(s)
    ensures Pessimistic(s).None? && MatchConstraint(s, "=").None? && MatchConstraint(s, "!=").None?
  {
    assert forall i :: 0 <= i < |s| ==> CutSpace(s[i]) && s[i] != '~' && s[i] != ')';
    ContainsFree(s);
  }

  lemma JoinEmpty(rs: seq<string>)
    ensures Join(rs, ", ") == "" <==> rs == [] || rs == [""]
  {
  }

  lemma {:induction false} ShownPrint(ds: seq<string>, ignoreIteration: bool)
    ensures PrintedRelations(ds, ignoreIteration) == PrintedRelations(Shown(ds), ignoreIteration)
    ensures PrintedRelations(ds, ignoreIteration) == [] <==> Shown(ds) == []
    ensures |PrintedRelations(ds, ignoreIteration)| >= |Shown(ds)|
  {
    if ds != [] {
      ShownPrint(ds[1..], ignoreIteration);
      PrintsNothing(ds[0], ignoreIteration);
      if Inequality(ds[0]) {
        assert [] + Shown(ds[1..]) == Shown(ds[1..]);
      } else {
        assert ([ds[0]] + Shown(ds[1..]))[1..] == Shown(ds[1..]);
      }
    }
  }

  /** All dependencies are inequalities, but for at most one that is blank. */
  predicate Empty(ds: seq<string>)
  {
    Shown(ds) == [] || (|Shown(ds)| == 1 && OnlyCut(Shown(ds)[0]))
  }

  /** The printed list is empty exactly when no dependency is to be shown, or only a blank one. */
  lemma EmptyLine(ds: seq<string>, ignoreIteration: bool)
    ensures Join(PrintedRelations(ds, ignoreIteration), ", ") == "" <==> Empty(ds)
  {
    var rs, shown := PrintedRelations(ds, ignoreIteration), Shown(ds);
    ShownPrint(ds, ignoreIteration);
    JoinEmpty(rs);
    if |shown| == 1 {
      assert shown[1..] == [] && PrintedRelations(shown, ignoreIteration) == Normalize(shown[0], ignoreIteration).0 + [];
      PrintsNothing(shown[0], ignoreIteration);
      ShownPlain(ds, 0);
    }
  }

  lemma {:induction false} ShownPlain(ds: seq<string>, i: nat)
    requires i < |Shown(ds)|
    ensures !Inequality(Shown(ds)[i])
  {
    if Inequality(ds[0]) {
      assert Shown(ds) == Shown(ds[1..]);
      ShownPlain(ds[1..], i);
    } else if i > 0 {
      assert Shown(ds)[i] == Shown(ds[1..])[i - 1];
      ShownPlain(ds[1..], i - 1);
    }
  }

  /** "name (!= version)" is an inequality. */
  lemma InequalityText(name: string, version: string)
    requires PlainWord(name) && !HasUpper(name) && version != ""
    requires '\n' !in version && '_' !in version && '~' !in version
    ensures Inequality(name + [' '] + ("(!= " + version + ")"))
  {
    var tail := "(!= " + version + ")";
    assert '_' !in tail && '~' !in tail && tail[0] == '(';
    PreparedInequality(name, tail);
    ContainsFree(name + [' '] + tail);
    MatchedInequality(name, version);
  }

  lemma PreparedInequality(name: string, tail: string)
    requires PlainWord(name) && !HasUpper(name) && '_' !in tail && tail != "" && tail[0] == '('
    ensures Prepare(name + [' '] + tail) == name + [' '] + tail
  {
    var d := name + [' '] + tail;
    PrefixNotOfSplit(name, ' ', tail, {' ', '('}) by { WordSpaceless(name); }
    LowerAllFixed(name);
    assert LowerName(d) == d by { assert d[..|name|] == name && name + d[|name|..] == d; }
    DashesFixed(d);
    assert OperatorForm(d) == d by { assert d[|name| + 1] == '('; }
  }

  lemma MatchedInequality(name: string, version: string)
    requires PlainWord(name) && version != "" && '\n' !in version
    ensures MatchConstraint(name + [' '] + ("(!= " + version + ")"), "!=") == Some((name, version))
  {
    var tail := "(!= " + version + ")";
    var d := name + [' '] + tail;
    WordSpaceless(name);
    PrefixNotOfSplit(name, ' ', tail, PATTERN_SPACES);
    assert d[..|name|] == name && d[|name|..] == " " + tail && d[|name| + 1..] == tail;
    assert PrefixOf(d[|name|..], PATTERN_SPACES) == 1 by { SingleGap(tail); }
    InequalityTail(version);
  }

  lemma InequalityTail(version: string)
    requires '\n' !in version
    ensures var tail := "(!= " + version + ")";
            HasPrefix(tail, "(" + "!=" + " ") && '\n' !in tail && tail[|tail| - 1] == ')' && tail[4..|tail| - 1] == version
  {
    assert "(" + "!=" + " " == "(!= ";
  }
}
