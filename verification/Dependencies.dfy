/**
 Dependency relations: reading a Depends value, rewriting one relation for
 output, and the version bounds the pessimistic and exact forms expand to.
 */
module Dependencies {
  import opened Text
  import opened Numbers

  /** Length of the first word of a text that starts with one. */
  function WordLength(s: string): (n: nat)
    ensures n <= |s|
    ensures s != "" && !IsSpace(s[0]) ==> n > 0
  {
    if s == "" || IsSpace(s[0]) then 0 else 1 + WordLength(s[1..])
  }

  /** strings.Fields. */
  function Words(s: string): seq<string>
    decreases |s|
  {
    var t := TrimLeft(s);
    if t == "" then [] else [t[..WordLength(t)]] + Words(t[WordLength(t)..])
  }

  function DropBlanks(s: string): string
  {
    if s != "" && s[0] == ' ' then DropBlanks(s[1..]) else s
  }

  /** Splitting at commas, each with the blanks after it. */
  function SplitRelations(s: string): seq<string>
  {
    TrimmedTails(Split(s, ','))
  }

  function TrimmedTails(parts: seq<string>): seq<string>
    requires parts != []
  {
    [parts[0]] + DropBlanksAll(parts[1..])
  }

  function DropBlanksAll(parts: seq<string>): (kept: seq<string>)
    ensures |kept| == |parts|
  {
    if parts == [] then [] else [DropBlanks(parts[0])] + DropBlanksAll(parts[1..])
  }

  function PrefixOf(s: string, allowed: set<char>): (n: nat)
    ensures n <= |s|
  {
    if s == "" || s[0] !in allowed then 0 else 1 + PrefixOf(s[1..], allowed)
  }

  function PrefixNotOf(s: string, stops: set<char>): (n: nat)
    ensures n <= |s|
    ensures n < |s| ==> s[n] in stops
  {
    if s == "" || s[0] in stops then 0 else 1 + PrefixNotOf(s[1..], stops)
  }

  /** The relation pattern: a name, optionally with a parenthesised operator and version. */
  predicate WellFormedRelation(s: string)
  {
    var n := PrefixNotOf(s, {' '});
    n > 0 &&
    (n == |s| ||
     (HasPrefix(s[n..], " (") &&
      var rest := s[n + 2..];
      var k := PrefixOf(rest, {'>', '=', '<'});
      k > 0 && k < |rest| && rest[k] == ' ' &&
      var version := rest[k + 1..];
      |version| >= 2 && PrefixNotOf(version, {')'}) == |version| - 1))
  }

  function CanonicalRelations(parts: seq<string>): seq<string>
  {
    if parts == [] then []
    else [if WellFormedRelation(parts[0]) then TrimSpace(parts[0]) else parts[0]] + CanonicalRelations(parts[1..])
  }

  function ParseDependencies(value: string): seq<string>
  {
    if value == "" then [] else CanonicalRelations(SplitRelations(value))
  }

  function Debianize(operator: string): string
  {
    if operator == "<" then "<<" else if operator == ">" then ">>" else operator
  }

  /** "name op version" without punctuation becomes "name (op version)". */
  function OperatorForm(s: string): string
  {
    if '(' in s || ',' in s || '|' in s then s
    else
      var words := Words(s);
      if |words| >= 3 then words[0] + " (" + Debianize(words[1]) + " " + words[2] + ")" else s
  }

  function Lower(c: char): char
  {
    if 'A' <= c <= 'Z' then c - 'A' + 'a' else c
  }

  function LowerAll(s: string): (t: string)
    ensures |t| == |s|
  {
    if s == "" then "" else [Lower(s[0])] + LowerAll(s[1..])
  }

  predicate HasUpper(s: string)
  {
    exists i :: 0 <= i < |s| && 'A' <= s[i] <= 'Z'
  }

  /** The name part, up to the first blank or parenthesis, in lower case. */
  function LowerName(s: string): string
  {
    var n := PrefixNotOf(s, {' ', '('});
    LowerAll(s[..n]) + s[n..]
  }

  function Dashes(s: string): (t: string)
    ensures |t| == |s|
  {
    if s == "" then "" else [if s[0] == '_' then '-' else s[0]] + Dashes(s[1..])
  }

  /** The rewriting every relation gets before its shape is looked at. */
  function Prepare(s: string): string
  {
    Dashes(LowerName(OperatorForm(s)))
  }

  predicate Contains(s: string, sub: string)
  {
    HasPrefix(s, sub) || (s != "" && Contains(s[1..], sub))
  }

  /** Text without parentheses, tildes and greater-than signs. */
  function Strip(s: string): string
  {
    if s == "" then ""
    else (if s[0] in {'(', ')', '~', '>'} then "" else [s[0]]) + Strip(s[1..])
  }

  function Numeric(parts: seq<string>): (numbers: seq<int>)
    ensures |numbers| == |parts|
  {
    if parts == [] then [] else [ParseInt64(parts[0]).0] + Numeric(parts[1..])
  }

  /** Components of a version; a component that is not a number counts as zero. */
  function NumericVersion(version: string): (numbers: seq<int>)
    ensures |numbers| >= 1
  {
    Numeric(Split(version, '.'))
  }

  function Texts(numbers: seq<int>): (parts: seq<string>)
    ensures |parts| == |numbers|
  {
    if numbers == [] then [] else [Itoa(numbers[0])] + Texts(numbers[1..])
  }

  function JoinNumericVersion(numbers: seq<int>): string
  {
    Join(Texts(numbers), ".")
  }

  /** Upper bound of the pessimistic operator. */
  function PessimisticBound(base: seq<int>): (next: seq<int>)
    requires |base| >= 1
    ensures |next| == |base|
  {
    var i := if |base| >= 2 then |base| - 2 else 0;
    base[i := Wrap64(base[i] + 1)][|base| - 1 := 0]
  }

  /** Upper bound of an exact version with its iteration ignored. */
  function ExtensionBound(base: seq<int>): (next: seq<int>)
    requires |base| >= 1
    ensures |next| == |base|
  {
    base[|base| - 1 := Wrap64(base[|base| - 1] + 1)]
  }

  const PATTERN_SPACES: set<char> := {' ', '\t', '\n', '\r', '\U{0C}'}

  /** Match of a name, blanks, and a parenthesised operator with a one-line version. */
  function MatchConstraint(s: string, operator: string): Option<(string, string)>
  {
    var n := PrefixNotOf(s, PATTERN_SPACES);
    var gap := PrefixOf(s[n..], PATTERN_SPACES);
    var rest := s[n + gap..];
    var open := "(" + operator + " ";
    if n > 0 && gap > 0 && HasPrefix(rest, open) && |rest| >= |open| + 2 && rest[|rest| - 1] == ')' && '\n' !in rest
    then Some((s[..n], rest[|open|..|rest| - 1]))
    else None
  }

  function ReplaceFirst(s: string, from: string, to: string): string
  {
    if HasPrefix(s, from) then to + s[|from|..]
    else if s == "" then ""
    else [s[0]] + ReplaceFirst(s[1..], from, to)
  }

  predicate CutSpace(c: char)
  {
    c == ' ' || c == '\t' || c == '\r' || c == '\n'
  }

  function TrimRightCut(s: string): string
  {
    if s != "" && CutSpace(s[|s| - 1]) then TrimRightCut(s[..|s| - 1]) else s
  }

  /** The name and version a pessimistic relation expands, if the relation is one. */
  function Pessimistic(s: string): Option<(string, string)>
  {
    if !Contains(s, "(~>") then None
    else
      var words := Words(Strip(s));
      if |words| >= 2 then Some((words[0], words[1])) else None
  }

  function Bounds(name: string, version: string, upper: seq<int>): seq<string>
  {
    [name + " (>= " + version + ")", name + " (<< " + JoinNumericVersion(upper) + ")"]
  }

  /** The relations one dependency is printed as, and the conflict it turns into ("" for none). */
  function NormalizePrepared(s: string, ignoreIteration: bool): (seq<string>, string)
  {
    var pessimistic := Pessimistic(s);
    if pessimistic.Some? then
      var (name, version) := pessimistic.value;
      (Bounds(name, version, PessimisticBound(NumericVersion(version))), "")
    else if MatchConstraint(s, "!=").Some? then ([], ReplaceFirst(s, "!=", "="))
    else
      var exact := MatchConstraint(s, "=");
      if ignoreIteration && exact.Some? then
        var (name, version) := exact.value;
        (Bounds(name, version, ExtensionBound(NumericVersion(version))), "")
      else ([TrimRightCut(s)], "")
  }

  function Normalize(dependency: string, ignoreIteration: bool): (seq<string>, string)
  {
    NormalizePrepared(Prepare(dependency), ignoreIteration)
  }

  // ---------------------------------------------------------------- bounds

  /** Lexicographic order of version components. */
  predicate Before(a: seq<int>, b: seq<int>)
  {
    if b == [] then false
    else if a == [] then true
    else a[0] < b[0] || (a[0] == b[0] && Before(a[1..], b[1..]))
  }

  predicate Between(lower: seq<int>, v: seq<int>, upper: seq<int>)
  {
    !Before(v, lower) && Before(v, upper)
  }

  /** Every component is a non-negative number that can still be incremented. */
  ghost predicate Components(v: seq<int>)
  {
    forall i :: 0 <= i < |v| ==> 0 <= v[i] < MAX_INT64
  }

  /** Whether a version has all of the base's components but the last. */
  predicate Shares(base: seq<int>, v: seq<int>)
    requires base != []
  {
    |v| >= |base| - 1 && v[..|base| - 1] == base[..|base| - 1]
  }

  lemma SharesTail(base: seq<int>, v: seq<int>)
    requires |base| >= 2 && v != [] && v[0] == base[0]
    ensures Shares(base, v) <==> Shares(base[1..], v[1..])
  {
    if |v| >= |base| - 1 {
      assert v[..|base| - 1] == [v[0]] + v[1..][..|base| - 2];
      assert base[..|base| - 1] == [base[0]] + base[1..][..|base| - 2];
      assert v[..|base| - 1][1..] == v[1..][..|base| - 2] && base[..|base| - 1][1..] == base[1..][..|base| - 2];
    }
  }

  /**
   The pessimistic bounds of a version of two or more components admit exactly the
   versions that share all but its last component and are not below it, of any length,
   and besides them only the upper bound without its final zero.
   */
  lemma {:induction false} PessimisticInterval(base: seq<int>, v: seq<int>)
    requires |base| >= 2 && base[|base| - 2] < MAX_INT64
    requires (forall i :: 0 <= i < |base| ==> base[i] >= 0) && (forall i :: 0 <= i < |v| ==> v[i] >= 0)
    ensures var bound := PessimisticBound(base);
            Between(base, v, bound) <==> (Shares(base, v) && !Before(v, base)) || v == bound[..|bound| - 1]
    decreases |base|
  {
    var next := PessimisticBound(base);
    if v == [] {
      assert next[..|next| - 1] != [];
    } else if |base| == 2 {
      IntervalOfTwo(base, v);
    } else {
      assert next[0] == base[0] && next[1..] == PessimisticBound(base[1..]);
      PessimisticInterval(base[1..], v[1..]);
      if v[0] == base[0] { SharesTail(base, v); }
      assert next[..|next| - 1] == [next[0]] + next[1..][..|next| - 2];
      assert v == [v[0]] + v[1..];
    }
  }

  lemma IntervalOfTwo(base: seq<int>, v: seq<int>)
    requires |base| == 2 && v != [] && 0 <= base[0] < MAX_INT64 && forall i :: 0 <= i < |v| ==> v[i] >= 0
    ensures var bound := PessimisticBound(base);
            Between(base, v, bound) <==> (Shares(base, v) && !Before(v, base)) || v == bound[..1]
  {
    var bound := PessimisticBound(base);
    assert base[0] + 1 <= MAX_INT64;
    assert bound == [base[0] + 1, 0] && bound[1..] == [0];
    assert v[..1] == [v[0]] && base[..1] == [base[0]] && bound[..1] == [base[0] + 1];
    assert v == [v[0]] + v[1..];
    assert Before(v, bound) <==> v[0] < base[0] + 1 || (v[0] == base[0] + 1 && Before(v[1..], [0]));
    if v[1..] != [] { NothingBelowZero(v[1..]); }
  }

  lemma NothingBelowZero(v: seq<int>)
    requires v != [] && v[0] >= 0
    ensures !Before(v, [0])
  {
    assert [0][1..] == [];
  }

  lemma {:induction false} BeforeIrreflexive(v: seq<int>)
    ensures !Before(v, v)
  {
    if v != [] { BeforeIrreflexive(v[1..]); }
  }

  lemma {:induction false} BeforeThrough(v: seq<int>, a: seq<int>, b: seq<int>)
    requires Before(v, b) && !Before(a, b)
    ensures Before(v, a)
  {
    if v != [] && v[0] == a[0] { BeforeThrough(v[1..], a[1..], b[1..]); }
  }

  lemma {:induction false} BoundAbove(base: seq<int>)
    requires |base| >= 1 && forall i :: 0 <= i < |base| ==> 0 <= base[i] <= MAX_INT64
    ensures Before(base, PessimisticBound(base)) <==> |base| >= 2 && base[|base| - 2] < MAX_INT64
    decreases |base|
  {
    var bound := PessimisticBound(base);
    if |base| == 1 {
      assert bound == [0] && base == [base[0]];
      NothingBelowZero(base);
    } else if |base| == 2 {
      assert bound[0] == Wrap64(base[0] + 1) != base[0];
    } else {
      assert bound[0] == base[0] && bound[1..] == PessimisticBound(base[1..]);
      BoundAbove(base[1..]);
    }
  }

  /**
   The interval of the pessimistic bounds holds its base if the base has two components
   or more and the one that is raised can be; otherwise it is empty.
   */
  lemma PessimisticNonEmpty(base: seq<int>)
    requires |base| >= 1 && forall i :: 0 <= i < |base| ==> 0 <= base[i] <= MAX_INT64
    ensures (exists v :: Between(base, v, PessimisticBound(base))) <==> |base| >= 2 && base[|base| - 2] < MAX_INT64
    ensures |base| >= 2 && base[|base| - 2] < MAX_INT64 ==> Between(base, base, PessimisticBound(base))
  {
    BoundAbove(base);
    BeforeIrreflexive(base);
    if Before(base, PessimisticBound(base)) {
      assert Between(base, base, PessimisticBound(base));
    } else {
      forall v ensures !Between(base, v, PessimisticBound(base)) {
        if Before(v, PessimisticBound(base)) { BeforeThrough(v, base, PessimisticBound(base)); }
      }
    }
  }

  lemma ExtensionOfOne(n: int, v: seq<int>)
    requires v != [] && 0 <= n < MAX_INT64
    ensures Between([n], v, ExtensionBound([n])) <==> [n] <= v
  {
    var bound := ExtensionBound([n]);
    assert Wrap64(n + 1) == n + 1;
    assert bound[0] == n + 1 && bound[1..] == [] && [n][1..] == [];
    assert !Before(v[1..], []);
    assert Before(v, [n]) <==> v[0] < n;
    assert Before(v, bound) <==> v[0] < n + 1;
    assert [n] <= v <==> v[0] == n;
  }

  /** Ignoring the iteration admits exactly the versions that extend the exact one. */
  lemma {:induction false} ExtensionInterval(base: seq<int>, v: seq<int>)
    requires |base| >= 1 && 0 <= base[|base| - 1] < MAX_INT64
    ensures Between(base, v, ExtensionBound(base)) <==> base <= v
    decreases |base|
  {
    var next := ExtensionBound(base);
    if v == [] {
      assert Before(v, base);
    } else if |base| == 1 {
      ExtensionOfOne(base[0], v);
      assert base == [base[0]];
    } else {
      assert next[0] == base[0] && next[1..] == ExtensionBound(base[1..]);
      ExtensionInterval(base[1..], v[1..]);
      assert base <= v <==> base[0] == v[0] && base[1..] <= v[1..] by {
        assert base == [base[0]] + base[1..] && v == [v[0]] + v[1..];
      }
    }
  }

  lemma {:induction false} NumericOfTexts(numbers: seq<int>)
    requires forall i :: 0 <= i < |numbers| ==> MIN_INT64 <= numbers[i] <= MAX_INT64
    ensures Numeric(Texts(numbers)) == numbers
  {
    if numbers != [] {
      ItoaRoundTrip(numbers[0]);
      NumericOfTexts(numbers[1..]);
    }
  }

  lemma ItoaFree(n: int, c: char)
    requires !IsDigit(c) && c != '-'
    ensures c !in Itoa(n)
  {
    DigitsRoundTrip(if n < 0 then -n else n);
  }

  lemma {:induction false} TextsFree(numbers: seq<int>, c: char)
    requires !IsDigit(c) && c != '-'
    ensures Free(Texts(numbers), c)
  {
    if numbers != [] {
      ItoaFree(numbers[0], c);
      TextsFree(numbers[1..], c);
    }
  }

  /** A printed bound reads back as the components it was printed from. */
  lemma VersionTextRoundTrip(numbers: seq<int>)
    requires numbers != [] && forall i :: 0 <= i < |numbers| ==> MIN_INT64 <= numbers[i] <= MAX_INT64
    ensures NumericVersion(JoinNumericVersion(numbers)) == numbers
  {
    TextsFree(numbers, '.');
    assert "." == ['.'];
    SplitOfJoin(Texts(numbers), '.');
    NumericOfTexts(numbers);
  }
}
