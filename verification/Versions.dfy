/** Package version strings: epoch, version and iteration, and putting them back together. */
module Versions {
  import opened Text
  import opened Numbers
  import Control

  datatype Version = Version(epoch: string, version: string, iteration: string, iterationPresent: bool)

  /** Number of leading digits. */
  function DigitRun(s: string): (n: nat)
    ensures n <= |s|
  {
    if s == "" || !IsDigit(s[0]) then 0 else 1 + DigitRun(s[1..])
  }

  /** Length of the epoch: digits, a colon, and something after the colon. */
  function EpochLength(s: string): (n: nat)
    ensures n > 0 ==> n + 1 < |s| && s[n] == ':'
  {
    var n := DigitRun(s);
    if 0 < n && n + 1 < |s| && s[n] == ':' then n else 0
  }

  function AfterEpoch(s: string): string
  {
    if EpochLength(s) == 0 then s else s[EpochLength(s) + 1..]
  }

  /** First hyphen after at least one character, or the length. */
  function Hyphen(s: string): (i: nat)
    requires s != ""
    ensures 1 <= i <= |s|
    ensures i < |s| ==> s[i] == '-'
  {
    1 + Control.IndexOf(s[1..], '-')
  }

  /** Match of the version pattern; the dot of the pattern never matches a newline. */
  function ParseVersion(s: string): Option<Version>
  {
    if s == "" || '\n' in s then None
    else
      var rest := AfterEpoch(s);
      var i := Hyphen(rest);
      Some(Version(
             if EpochLength(s) == 0 then "" else s[..EpochLength(s)],
             rest[..i],
             if i < |rest| then rest[i + 1..] else "",
             '-' in rest))
  }

  function FullVersion(v: Version): string
  {
    if v == Version("", "", "", false) then ""
    else
      (if v.epoch != "" then v.epoch + ":" + v.version else v.version) +
      (if v.iterationPresent || v.iteration != "" then "-" + v.iteration else "")
  }

  /** The version texts that gain a hyphen: the part after the epoch has its only hyphen in front. */
  predicate LeadingHyphenOnly(s: string)
  {
    var rest := AfterEpoch(s);
    rest != "" && rest[0] == '-' && '-' !in rest[1..]
  }

  lemma {:induction false} IndexOfAbsent(s: string, c: char)
    ensures Control.IndexOf(s, c) == |s| <==> c !in s
  {
    if s != "" && s[0] != c {
      IndexOfAbsent(s[1..], c);
      assert c in s <==> c in s[1..];
    }
  }

  lemma FullVersionOfParts(rest: string)
    requires rest != ""
    ensures var i := Hyphen(rest);
            var iteration := if i < |rest| then rest[i + 1..] else "";
            rest[..i] + (if '-' in rest || iteration != "" then "-" + iteration else "") ==
            if rest[0] == '-' && '-' !in rest[1..] then rest + "-" else rest
  {
    var i := Hyphen(rest);
    IndexOfAbsent(rest[1..], '-');
    if i < |rest| {
      assert rest[..i] + ("-" + rest[i + 1..]) == rest;
      assert rest[1..][i - 1] == '-';
    } else {
      assert rest[..i] == rest;
      assert '-' in rest <==> rest[0] == '-';
    }
  }

  /** Parsing and reassembling a version is exact unless its only hyphen leads; then it gains one. */
  lemma VersionRoundTrip(s: string)
    requires ParseVersion(s).Some?
    ensures FullVersion(ParseVersion(s).value) == if LeadingHyphenOnly(s) then s + "-" else s
  {
    var rest := AfterEpoch(s);
    var v := ParseVersion(s).value;
    FullVersionOfParts(rest);
    Reassembled(v, rest, if LeadingHyphenOnly(s) then rest + "-" else rest);
    if EpochLength(s) > 0 { EpochText(s); }
  }

  lemma Reassembled(v: Version, rest: string, whole: string)
    requires v.version != ""
    requires v.version + (if v.iterationPresent || v.iteration != "" then "-" + v.iteration else "") == whole
    ensures FullVersion(v) == if v.epoch != "" then v.epoch + ":" + whole else whole
  {
  }

  lemma EpochText(s: string)
    requires EpochLength(s) > 0
    ensures s[..EpochLength(s)] + ":" + AfterEpoch(s) == s
    ensures s[..EpochLength(s)] + ":" + (AfterEpoch(s) + "-") == s + "-"
  {
  }

  /** One pass is enough: the reassembled version round-trips from then on. */
  lemma VersionStableAfterOnePass(s: string)
    requires ParseVersion(s).Some?
    ensures var once := FullVersion(ParseVersion(s).value);
            ParseVersion(once).Some? && FullVersion(ParseVersion(once).value) == once
  {
    VersionRoundTrip(s);
    if LeadingHyphenOnly(s) {
      var once := s + "-";
      var rest := AfterEpoch(s);
      EpochKept(s);
      assert AfterEpoch(once) == rest + "-";
      assert (rest + "-")[1..][|rest| - 1] == '-';
      VersionRoundTrip(once);
    }
  }

  lemma {:induction false} DigitRunKept(s: string)
    ensures DigitRun(s + "-") == DigitRun(s)
  {
    if s == "" {
      assert s + "-" == "-";
    } else if IsDigit(s[0]) {
      assert (s + "-")[1..] == s[1..] + "-";
      DigitRunKept(s[1..]);
    }
  }

  lemma EpochKept(s: string)
    requires LeadingHyphenOnly(s)
    ensures EpochLength(s + "-") == EpochLength(s)
  {
    DigitRunKept(s);
    var n := DigitRun(s);
    if EpochLength(s) == 0 { assert s[0] == '-'; }
  }

  lemma {:induction false} DigitsRun(digits: string, rest: string)
    requires AllDigits(digits) && (rest == "" || !IsDigit(rest[0]))
    ensures DigitRun(digits + rest) == |digits|
  {
    if digits == "" {
      assert digits + rest == rest;
    } else {
      assert (digits + rest)[1..] == digits[1..] + rest;
      DigitsRun(digits[1..], rest);
    }
  }

  /** Text without a colon has no epoch. */
  lemma NoEpoch(s: string)
    requires ':' !in s
    ensures EpochLength(s) == 0 && AfterEpoch(s) == s
  {
  }

  lemma AnEpoch(epoch: string, rest: string)
    requires epoch != "" && AllDigits(epoch) && rest != ""
    ensures EpochLength(epoch + ":" + rest) == |epoch| && AfterEpoch(epoch + ":" + rest) == rest
  {
    assert epoch + ":" + rest == epoch + (":" + rest);
    DigitsRun(epoch, ":" + rest);
  }

  lemma FirstHyphen(version: string, rest: string)
    requires version != "" && '-' !in version
    ensures Hyphen(version) == |version| && Hyphen(version + "-" + rest) == |version|
  {
    IndexOfAbsent(version[1..], '-');
    assert (version + "-" + rest)[1..] == version[1..] + ['-'] + rest;
    Control.IndexOfFirst(version[1..], '-', rest);
  }

  /** The parts of a version text: digits before a colon, then what is before the first hyphen, then what is after it. */
  lemma VersionParts(epoch: string, version: string, iteration: string)
    requires AllDigits(epoch) && version != "" && '-' !in version && '\n' !in version && '\n' !in iteration
    requires epoch == "" ==> ':' !in version && ':' !in iteration
    ensures var lead := if epoch == "" then "" else epoch + ":";
            && ParseVersion(lead + version) == Some(Version(epoch, version, "", false))
            && ParseVersion(lead + version + "-" + iteration) == Some(Version(epoch, version, iteration, true))
  {
    var lead := if epoch == "" then "" else epoch + ":";
    var dashed := version + "-" + iteration;
    assert lead + version + "-" + iteration == lead + dashed;
    WithEpoch(epoch, version);
    WithEpoch(epoch, dashed);
    PartsOf(lead + version, epoch, version, version, None);
    PartsOf(lead + dashed, epoch, dashed, version, Some(iteration));
  }

  lemma WithEpoch(epoch: string, rest: string)
    requires AllDigits(epoch) && rest != "" && (epoch == "" ==> ':' !in rest)
    ensures var s := (if epoch == "" then "" else epoch + ":") + rest;
            EpochLength(s) == |epoch| && s[..|epoch|] == epoch && AfterEpoch(s) == rest
  {
    if epoch == "" {
      assert "" + rest == rest;
      NoEpoch(rest);
    } else {
      AnEpoch(epoch, rest);
    }
  }

  lemma PartsOf(s: string, epoch: string, rest: string, version: string, iteration: Option<string>)
    requires s != "" && '\n' !in s && EpochLength(s) == |epoch| <= |s| && s[..|epoch|] == epoch && AfterEpoch(s) == rest
    requires version != "" && '-' !in version && rest == if iteration.Some? then version + "-" + iteration.value else version
    ensures ParseVersion(s) == Some(Version(epoch, version, if iteration.Some? then iteration.value else "", iteration.Some?))
  {
    FirstHyphen(version, if iteration.Some? then iteration.value else "");
    assert rest[..|version|] == version;
    if iteration.Some? {
      assert rest[|version|] == '-';
      assert rest[|version| + 1..] == iteration.value;
    }
  }
}
