/** Strings as the program's codecs use them: splitting, joining and trimming ASCII text. */
module Text {

  datatype Option<+T> = None | Some(value: T)

  datatype Result<+T, +E> = Ok(value: T) | Err(error: E)

  /** Applying steps in order, ending at the first that fails. */
  function Steps<S, X>(start: S, items: seq<X>, step: (S, X) -> Option<S>): Option<S>
  {
    if items == [] then Some(start)
    else
      match Steps(start, items[..|items| - 1], step)
      case None => None
      case Some(s) => step(s, items[|items| - 1])
  }

  /** One more item: the next state, or the end of all steps. */
  lemma StepsNext<S, X>(start: S, items: seq<X>, step: (S, X) -> Option<S>, i: nat)
    requires i < |items| && Steps(start, items[..i], step).Some?
    ensures Steps(start, items[..i + 1], step) == step(Steps(start, items[..i], step).value, items[i])
    ensures Steps(start, items[..i + 1], step) == None ==> Steps(start, items, step) == None
  {
    assert items[..i + 1][..i] == items[..i];
    if Steps(start, items[..i + 1], step) == None { StepsStop(start, items, step, i + 1); }
  }

  lemma {:induction false} StepsStop<S, X>(start: S, items: seq<X>, step: (S, X) -> Option<S>, k: nat)
    requires k <= |items| && Steps(start, items[..k], step) == None
    ensures Steps(start, items, step) == None
    decreases |items| - k
  {
    if k < |items| {
      assert items[..k + 1][..k] == items[..k];
      StepsStop(start, items, step, k + 1);
    } else {
      assert items[..k] == items;
    }
  }

  /** strings.Split with a one-character separator. */
  function Split(s: string, sep: char): (parts: seq<string>)
    ensures |parts| >= 1
  {
    if s == "" then [""]
    else
      var rest := Split(s[1..], sep);
      if s[0] == sep then [""] + rest else [[s[0]] + rest[0]] + rest[1..]
  }

  /** strings.Join. */
  function Join(parts: seq<string>, sep: string): string
  {
    if |parts| == 0 then ""
    else if |parts| == 1 then parts[0]
    else parts[0] + sep + Join(parts[1..], sep)
  }

  ghost predicate Free(parts: seq<string>, c: char)
  {
    forall i :: 0 <= i < |parts| ==> c !in parts[i]
  }

  lemma {:induction false} SplitFree(s: string, sep: char)
    ensures Free(Split(s, sep), sep)
  {
    if s != "" { SplitFree(s[1..], sep); }
  }

  /** Splitting invents no characters. */
  lemma {:induction false} SplitChars(s: string, sep: char, c: char)
    requires c !in s
    ensures Free(Split(s, sep), c)
  {
    if s != "" { SplitChars(s[1..], sep, c); }
  }

  lemma {:induction false} SplitAtSeparator(a: string, b: string, sep: char)
    requires sep !in a
    ensures Split(a + [sep] + b, sep) == [a] + Split(b, sep)
  {
    if a == "" {
      assert (a + [sep] + b)[1..] == b;
    } else {
      assert (a + [sep] + b)[1..] == a[1..] + [sep] + b;
      SplitAtSeparator(a[1..], b, sep);
      assert [a[0]] + a[1..] == a;
    }
  }

  lemma {:induction false} SplitWhole(a: string, sep: char)
    requires sep !in a
    ensures Split(a, sep) == [a]
  {
    if a != "" {
      SplitWhole(a[1..], sep);
      assert [a[0]] + a[1..] == a;
    }
  }

  /** Splitting undoes joining when no part holds the separator. */
  lemma {:induction false} SplitOfJoin(parts: seq<string>, sep: char)
    requires |parts| >= 1 && Free(parts, sep)
    ensures Split(Join(parts, [sep]), sep) == parts
  {
    if |parts| == 1 {
      SplitWhole(parts[0], sep);
    } else {
      SplitAtSeparator(parts[0], Join(parts[1..], [sep]), sep);
      SplitOfJoin(parts[1..], sep);
      assert [parts[0]] + parts[1..] == parts;
    }
  }

  /** Joining undoes splitting. */
  lemma {:induction false} JoinOfSplit(s: string, sep: char)
    ensures Join(Split(s, sep), [sep]) == s
  {
    if s != "" {
      JoinOfSplit(s[1..], sep);
      var rest := Split(s[1..], sep);
      if s[0] == sep {
        assert Split(s, sep)[1..] == rest;
        assert s == "" + [sep] + s[1..];
      } else {
        var whole := Split(s, sep);
        assert whole[1..] == rest[1..];
        if |rest| == 1 {
        } else {
          assert Join(whole, [sep]) == [s[0]] + (rest[0] + [sep] + Join(rest[1..], [sep]));
        }
      }
    }
  }

  lemma {:induction false} JoinConcat(a: seq<string>, b: seq<string>, sep: string)
    requires |a| >= 1 && |b| >= 1
    ensures Join(a + b, sep) == Join(a, sep) + sep + Join(b, sep)
  {
    if |a| == 1 {
      assert (a + b)[1..] == b;
    } else {
      assert (a + b)[1..] == a[1..] + b;
      JoinConcat(a[1..], b, sep);
    }
  }

  lemma {:induction false} SplitConcat(a: string, b: string, sep: char)
    ensures Split(a + [sep] + b, sep) == Split(a, sep) + Split(b, sep)
  {
    var whole := Split(a, sep) + Split(b, sep);
    SplitFree(a, sep);
    SplitFree(b, sep);
    JoinConcat(Split(a, sep), Split(b, sep), [sep]);
    JoinOfSplit(a, sep);
    JoinOfSplit(b, sep);
    SplitOfJoin(whole, sep);
  }

  /** A character not in any part and different from the separator is not in the joined text. */
  lemma {:induction false} JoinFree(parts: seq<string>, sep: string, c: char)
    requires Free(parts, c) && c !in sep
    ensures c !in Join(parts, sep)
  {
    if |parts| > 1 {
      JoinFree(parts[1..], sep, c);
    }
  }

  predicate IsSpace(c: char)
  {
    c == ' ' || c == '\t' || c == '\n' || c == '\r' || c == '\U{0B}' || c == '\U{0C}'
  }

  /** A text without blanks. */
  ghost predicate Word(s: string)
  {
    s != "" && forall i :: 0 <= i < |s| ==> !IsSpace(s[i])
  }

  function TrimLeft(s: string): (t: string)
    ensures |t| <= |s|
    ensures t == "" || !IsSpace(t[0])
  {
    if s != "" && IsSpace(s[0]) then TrimLeft(s[1..]) else s
  }

  function TrimRight(s: string): (t: string)
    ensures |t| <= |s|
    ensures t == "" || !IsSpace(t[|t| - 1])
  {
    if s != "" && IsSpace(s[|s| - 1]) then TrimRight(s[..|s| - 1]) else s
  }

  /** strings.TrimSpace over ASCII. */
  function TrimSpace(s: string): string
  {
    TrimRight(TrimLeft(s))
  }

  predicate Trimmed(s: string)
  {
    s == "" || (!IsSpace(s[0]) && !IsSpace(s[|s| - 1]))
  }

  lemma TrimSpaceFixed(s: string)
    ensures TrimSpace(s) == s <==> Trimmed(s)
  {
    var left := TrimLeft(s);
    if TrimSpace(s) == s {
      assert |left| == |s|;
    }
  }

  predicate Blank(s: string)
  {
    forall i :: 0 <= i < |s| ==> IsSpace(s[i])
  }

  lemma {:induction false} TrimLeftBlank(s: string)
    ensures TrimLeft(s) == "" <==> Blank(s)
  {
    if s != "" && IsSpace(s[0]) {
      TrimLeftBlank(s[1..]);
      assert Blank(s) <==> Blank(s[1..]) by {
        if Blank(s[1..]) {
          forall i | 0 <= i < |s| ensures IsSpace(s[i]) {
            if i > 0 { assert s[i] == s[1..][i - 1]; }
          }
        }
      }
    }
  }

  /** TrimSpace leaves nothing exactly of the texts that are blanks throughout. */
  lemma TrimSpaceBlank(s: string)
    ensures TrimSpace(s) == "" <==> Blank(s)
  {
    TrimLeftBlank(s);
    var left := TrimLeft(s);
    if left != "" { TrimRightKeepsFirst(left); }
  }

  lemma {:induction false} TrimRightKeepsFirst(s: string)
    requires s != "" && !IsSpace(s[0])
    ensures TrimRight(s) != "" && TrimRight(s)[0] == s[0]
  {
    if IsSpace(s[|s| - 1]) { TrimRightKeepsFirst(s[..|s| - 1]); }
  }

  /** The ordinary text predicates: strings.HasPrefix and strings.HasSuffix. */
  lemma {:induction false} TrimLeftFree(s: string, c: char)
    requires c !in s
    ensures c !in TrimLeft(s)
  {
    if s != "" { TrimLeftFree(s[1..], c); }
  }

  lemma {:induction false} TrimRightFree(s: string, c: char)
    requires c !in s
    ensures c !in TrimRight(s)
  {
    if s != "" { TrimRightFree(s[..|s| - 1], c); }
  }

  lemma TrimSpaceFree(s: string, c: char)
    requires c !in s
    ensures c !in TrimSpace(s)
  {
    TrimLeftFree(s, c);
    TrimRightFree(TrimLeft(s), c);
  }

  predicate HasPrefix(s: string, prefix: string)
  {
    prefix <= s
  }

  predicate HasSuffix(s: string, suffix: string)
  {
    |suffix| <= |s| && s[|s| - |suffix|..] == suffix
  }

  function TrimPrefix(s: string, prefix: string): string
  {
    if HasPrefix(s, prefix) then s[|prefix|..] else s
  }
}
