/** What the usual forms of a dependency print as. */
module DependencyForms {
  import opened Text
  import opened Control
  import opened Numbers
  import opened Dependencies
  import opened DependencyStability

  /** A character of a package name, in lower case and with a hyphen for an underscore. */
  function FoldedChar(c: char): char
  {
    if c == '_' then '-' else if 'A' <= c <= 'Z' then c - 'A' + 'a' else c
  }

  function FoldedName(name: string): (folded: string)
    ensures |folded| == |name|
    ensures forall i :: 0 <= i < |name| ==> folded[i] == FoldedChar(name[i])
  {
    if name == "" then "" else [FoldedChar(name[0])] + FoldedName(name[1..])
  }

  /** A word of ordinary characters. */
  ghost predicate Term(s: string)
  {
    Word(s) && forall i :: 0 <= i < |s| ==> s[i] !in {'(', ')', ',', '|', '~', '!'}
  }

  /** A relation as control files write it. */
  function Relation(name: string, operator: string, version: string): string
  {
    name + [' '] + Constraint(operator, version)
  }

  function Constraint(operator: string, version: string): string
  {
    "(" + operator + " " + version + ")"
  }

  const OPERATORS: set<string> := {"<<", "<=", "=", ">=", ">>", "!=", "<", ">"}

  // ------------------------------------------------------------------------- preparing

  lemma FoldedTerm(name: string)
    requires Term(name)
    ensures Term(FoldedName(name)) && Spaceless(FoldedName(name)) && Spaceless(name) && ' ' !in name
  {
    forall i | 0 <= i < |name|
      ensures !IsSpace(FoldedName(name)[i]) && FoldedName(name)[i] !in {'(', ')', ',', '|', '~', '!'} && FoldedName(name)[i] !in PATTERN_SPACES
      ensures name[i] !in PATTERN_SPACES
    {
      assert FoldedName(name)[i] == FoldedChar(name[i]) && !IsSpace(name[i]);
    }
  }

  /** A text with a parenthesis is only folded: its name throughout, the rest as it stands. */
  lemma PreparedText(name: string, tail: string)
    requires Term(name) && tail != "" && tail[0] == '(' && '_' !in tail
    ensures Prepare(name + [' '] + tail) == FoldedName(name) + [' '] + tail
  {
    var s := name + [' '] + tail;
    assert s[|name| + 1] == '(';
    assert OperatorForm(s) == s;
    FoldedTerm(name);
    PrefixNotOfSplit(name, ' ', tail, {' ', '('});
    forall i | 0 <= i < |s| ensures Prepare(s)[i] == (FoldedName(name) + [' '] + tail)[i] {
      RewrittenAt(s, i);
      if i > |name| { assert s[i] == tail[i - |name| - 1]; }
    }
    RewrittenAt(s, 0);
  }

  lemma ConstraintClean(operator: string, version: string)
    requires operator in OPERATORS && Term(version) && '_' !in version
    ensures '_' !in Constraint(operator, version) && '~' !in Constraint(operator, version) && '\n' !in Constraint(operator, version)
    ensures ' ' !in operator && operator != "" && Word(operator)
  {
    forall i | 0 <= i < |version| ensures version[i] != '\n' { assert !IsSpace(version[i]); }
  }

  // -------------------------------------------------------------------------- matching

  /** Texts up to their first blank. */
  lemma UpToBlank(a: string, b: string, c: string, d: string)
    requires ' ' !in a && ' ' !in b && a + [' '] + c == b + [' '] + d
    ensures a == b
  {
    IndexOfFirst(a, ' ', c);
    IndexOfFirst(b, ' ', d);
    assert (a + [' '] + c)[..|a|] == a && (b + [' '] + d)[..|b|] == b;
  }

  lemma OpensWith(operator: string, version: string, other: string)
    requires ' ' !in operator && ' ' !in other
    ensures HasPrefix(Constraint(operator, version), "(" + other + " ") <==> operator == other
  {
    var s := Constraint(operator, version);
    assert s == "(" + operator + [' '] + (version + ")");
    if HasPrefix(s, "(" + other + " ") {
      var rest := s[|other| + 2..];
      assert s == "(" + other + [' '] + rest;
      UpToBlank("(" + operator, "(" + other, version + ")", rest);
      assert ("(" + operator)[1..] == operator && ("(" + other)[1..] == other;
    }
  }

  lemma Matched(name: string, operator: string, version: string, other: string)
    requires Term(name) && operator in OPERATORS && Term(version) && '_' !in version && other in {"!=", "="}
    ensures MatchConstraint(Relation(name, operator, version), other) == if operator == other then Some((name, version)) else None
  {
    var tail := Constraint(operator, version);
    var d := name + [' '] + tail;
    FoldedTerm(name);
    ConstraintClean(operator, version);
    PrefixNotOfSplit(name, ' ', tail, PATTERN_SPACES);
    assert d[..|name|] == name && d[|name|..] == " " + tail && d[|name| + 1..] == tail;
    assert PrefixOf(d[|name|..], PATTERN_SPACES) == 1 by { SingleGap(tail); }
    OpensWith(operator, version, other);
    if operator == other { assert tail[|operator| + 2..|tail| - 1] == version; }
  }

  lemma {:induction false} Replaced(a: string, b: string)
    requires '!' !in a
    ensures ReplaceFirst(a + "!=" + b, "!=", "=") == a + "=" + b
  {
    var s := a + "!=" + b;
    if a == "" {
      assert s[..2] == "!=" && s[2..] == b;
    } else {
      assert s[0] == a[0] && s[1..] == a[1..] + "!=" + b;
      assert "!="[0] == '!' && !HasPrefix(s, "!=");
      Replaced(a[1..], b);
      assert a + "=" + b == [a[0]] + (a[1..] + "=" + b);
    }
  }

  lemma NotPessimistic(name: string, operator: string, version: string)
    requires Term(name) && operator in OPERATORS && Term(version) && '_' !in version
    ensures Pessimistic(Relation(name, operator, version)).None?
  {
    ConstraintClean(operator, version);
    assert '~' !in name;
    ContainsFree(Relation(name, operator, version));
  }

  // ----------------------------------------------------------------------- the theorems

  /** What a relation on a folded name prints as. */
  lemma FoldedForm(name: string, operator: string, version: string, ignoreIteration: bool)
    requires Term(name) && operator in OPERATORS && Term(version) && '_' !in version
    ensures NormalizePrepared(Relation(name, operator, version), ignoreIteration) ==
            if operator == "!=" then ([], Relation(name, "=", version))
            else if operator == "=" && ignoreIteration then
              ([Relation(name, ">=", version), Relation(name, "<<", JoinNumericVersion(ExtensionBound(NumericVersion(version))))], "")
            else ([Relation(name, operator, version)], "")
  {
    var s := Relation(name, operator, version);
    NotPessimistic(name, operator, version);
    Matched(name, operator, version, "!=");
    Matched(name, operator, version, "=");
    if operator == "!=" {
      InequalityForm(name, version);
    } else if operator == "=" && ignoreIteration {
      IntervalForm(name, version, ExtensionBound(NumericVersion(version)));
    } else {
      assert s[|s| - 1] == ')';
      assert TrimRightCut(s) == s;
    }
  }

  lemma InequalityForm(name: string, version: string)
    requires '!' !in name
    ensures ReplaceFirst(Relation(name, "!=", version), "!=", "=") == Relation(name, "=", version)
  {
    var front, back := name + " (", " " + version + ")";
    assert Relation(name, "!=", version) == front + "!=" + back;
    assert Relation(name, "=", version) == front + "=" + back;
    Replaced(front, back);
  }

  lemma IntervalForm(name: string, version: string, upper: seq<int>)
    ensures Bounds(name, version, upper) == [Relation(name, ">=", version), Relation(name, "<<", JoinNumericVersion(upper))]
  {
    var number := JoinNumericVersion(upper);
    assert name + " (>= " + version + ")" == Relation(name, ">=", version);
    assert name + " (<< " + number + ")" == Relation(name, "<<", number);
  }

  /**
   A relation prints with its name folded and its operator and version as they are; an
   inequality becomes a conflict with that very version; and an exact version, if
   iterations are ignored, becomes the interval of its extensions.
   */
  lemma RelationPrints(name: string, operator: string, version: string, ignoreIteration: bool)
    requires Term(name) && operator in OPERATORS && Term(version) && '_' !in version
    ensures Normalize(Relation(name, operator, version), ignoreIteration) ==
            if operator == "!=" then ([], Relation(FoldedName(name), "=", version))
            else if operator == "=" && ignoreIteration then
              ([Relation(FoldedName(name), ">=", version),
                Relation(FoldedName(name), "<<", JoinNumericVersion(ExtensionBound(NumericVersion(version))))], "")
            else ([Relation(FoldedName(name), operator, version)], "")
  {
    ConstraintClean(operator, version);
    PreparedText(name, Constraint(operator, version));
    FoldedTerm(name);
    FoldedForm(FoldedName(name), operator, version, ignoreIteration);
  }

  /** A relation without parentheses is given them, and a strict operator its Debian form. */
  lemma BareRelationPrints(name: string, operator: string, version: string, ignoreIteration: bool)
    requires Term(name) && operator in OPERATORS && operator != "!=" && Term(version) && '_' !in version
    ensures Normalize(name + " " + operator + " " + version, ignoreIteration) ==
            Normalize(Relation(name, if operator == "<" then "<<" else if operator == ">" then ">>" else operator, version), ignoreIteration)
  {
    var s := name + " " + operator + " " + version;
    var debian := if operator == "<" then "<<" else if operator == ">" then ">>" else operator;
    var whole := Relation(name, debian, version);
    BareForm(name, operator, version);
    assert whole[|name| + 1] == '(';
    assert OperatorForm(whole) == whole;
  }

  lemma BareForm(name: string, operator: string, version: string)
    requires Term(name) && operator in OPERATORS && operator != "!=" && Term(version) && '_' !in version
    ensures OperatorForm(name + " " + operator + " " + version) ==
            Relation(name, if operator == "<" then "<<" else if operator == ">" then ">>" else operator, version)
  {
    BareWords(name, operator, version);
    BareFree(name, operator, version);
    var debian := if operator == "<" then "<<" else if operator == ">" then ">>" else operator;
    assert name + " (" + debian + " " + version + ")" == Relation(name, debian, version);
  }

  lemma BareWords(name: string, operator: string, version: string)
    requires Term(name) && operator in OPERATORS && Term(version) && '_' !in version
    ensures Words(name + " " + operator + " " + version) == [name, operator, version]
  {
    ConstraintClean(operator, version);
    assert name + " " + operator + " " + version == name + (" " + (operator + [' '] + version));
    ThreeWords(name, operator, version);
    WordsOfWord(name);
    WordsOfWord(operator);
    WordsOfWord(version);
  }

  lemma BareFree(name: string, operator: string, version: string)
    requires Term(name) && operator in OPERATORS && Term(version)
    ensures var s := name + " " + operator + " " + version; '(' !in s && ',' !in s && '|' !in s
  {
  }

  /** A name alone prints folded. */
  lemma NamePrints(name: string, ignoreIteration: bool)
    requires Term(name)
    ensures Normalize(name, ignoreIteration) == ([FoldedName(name)], "")
  {
    WordsOfWord(name);
    FoldedTerm(name);
    assert OperatorForm(name) == name;
    NoStop(name);
    forall i | 0 <= i < |name| ensures Prepare(name)[i] == FoldedName(name)[i] { RewrittenAt(name, i); }
    RewrittenAt(name, 0);
    assert Prepare(name) == FoldedName(name);
    NameAlone(FoldedName(name), ignoreIteration);
  }

  lemma {:induction false} NoStop(name: string)
    requires Term(name) || name == ""
    ensures PrefixNotOf(name, {' ', '('}) == |name| && PrefixNotOf(name, PATTERN_SPACES) == |name|
  {
    if name != "" {
      assert !IsSpace(name[0]);
      NoStop(name[1..]);
    }
  }

  lemma NameAlone(name: string, ignoreIteration: bool)
    requires Term(name)
    ensures NormalizePrepared(name, ignoreIteration) == ([name], "")
  {
    assert '~' !in name;
    ContainsFree(name);
    NoStop(name);
    assert !IsSpace(name[|name| - 1]);
  }
}
