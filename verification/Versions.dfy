/** Coolify releases: compared number by number, and the gates that hold in a range of them. */
module Versions {
  import opened Wrappers

  type Version = seq<nat>

  /** Python's order on tuples: number by number, a prefix before what it is a prefix of. */
  predicate Less(a: Version, b: Version) {
    if b == [] then false
    else if a == [] then true
    else a[0] < b[0] || (a[0] == b[0] && Less(a[1..], b[1..]))
  }

  predicate AtMost(a: Version, b: Version) {
    !Less(b, a)
  }

  lemma {:induction false} LessIsTotal(a: Version, b: Version)
    ensures !(Less(a, b) && Less(b, a))
    ensures Less(a, b) || Less(b, a) || a == b
    ensures !Less(a, a)
  {
    if a != [] && b != [] {
      LessIsTotal(a[1..], b[1..]);
      if a[0] == b[0] && a[1..] == b[1..] {
        assert a == [a[0]] + a[1..] && b == [b[0]] + b[1..];
      }
    }
    if a != [] {
      LessIsTotal(a[1..], a[1..]);
    }
  }

  lemma {:induction false} LessIsTransitive(a: Version, b: Version, c: Version)
    ensures Less(a, b) && Less(b, c) ==> Less(a, c)
  {
    if a != [] && b != [] && c != [] {
      LessIsTransitive(a[1..], b[1..], c[1..]);
    }
  }

  lemma {:induction false} MixedTransitive(a: Version, b: Version, c: Version)
    ensures AtMost(a, b) && AtMost(b, c) ==> AtMost(a, c)
    ensures AtMost(a, b) && Less(b, c) ==> Less(a, c)
    ensures Less(a, b) && AtMost(b, c) ==> Less(a, c)
  {
    LessIsTransitive(a, b, c);
    LessIsTransitive(c, a, b);
    LessIsTransitive(c, b, a);
    LessIsTransitive(b, c, a);
    LessIsTotal(a, b);
    LessIsTotal(b, c);
    LessIsTotal(a, c);
  }

  /** The first number that differs decides; without one, the shorter is less. */
  ghost predicate DiffersAt(a: Version, b: Version, i: nat) {
    && i <= |a| && i < |b| && a[..i] == b[..i]
    && (i == |a| || a[i] < b[i])
  }

  lemma {:induction false} LessMeans(a: Version, b: Version)
    ensures Less(a, b) <==> exists i: nat :: DiffersAt(a, b, i)
  {
    if b == [] || a == [] {
      assert b != [] ==> DiffersAt(a, b, 0);
    } else {
      LessMeans(a[1..], b[1..]);
      if Less(a, b) {
        if a[0] < b[0] {
          assert DiffersAt(a, b, 0);
        } else {
          var i: nat :| DiffersAt(a[1..], b[1..], i);
          assert a[..i + 1] == [a[0]] + a[1..][..i] && b[..i + 1] == [b[0]] + b[1..][..i];
          assert DiffersAt(a, b, i + 1);
        }
      }
      if i: nat :| DiffersAt(a, b, i) {
        if i > 0 {
          assert a[0] == a[..i][0] && b[0] == b[..i][0];
          assert a[1..][..i - 1] == a[..i][1..] && b[1..][..i - 1] == b[..i][1..];
          assert DiffersAt(a[1..], b[1..], i - 1);
        }
      }
    }
  }

  // ── gates ──────────────────────────────────────────────────────────────────

  /** `since` inclusive, `until` exclusive. */
  datatype Gate = Gate(since: Option<Version>, until: Option<Version>) {
    /** A bare gate decides a check, so an unknown release counts as inside. */
    predicate Holds(version: Option<Version>) {
      version.Some? ==>
        && (since.Some? ==> AtMost(since.value, version.value))
        && (until.Some? ==> Less(version.value, until.value))
    }

    /** Two comparisons in place of one for every release from `low` to `high`. */
    predicate HoldsThroughout(low: Version, high: Version) {
      && (since.Some? ==> AtMost(since.value, low))
      && (until.Some? ==> Less(high, until.value))
    }
  }

  /** A gate opens at `since` itself and closes at `until` itself. */
  lemma {:induction false} GateMeans(gate: Gate, v: Version)
    ensures gate.Holds(None)
    ensures gate.Holds(Some(v)) <==>
              && (gate.since == None || gate.since == Some(v) || exists i: nat :: DiffersAt(gate.since.value, v, i))
              && (gate.until == None || exists i: nat :: DiffersAt(v, gate.until.value, i))
  {
    if gate.since.Some? {
      LessMeans(gate.since.value, v);
      LessIsTotal(v, gate.since.value);
    }
    if gate.until.Some? {
      LessMeans(v, gate.until.value);
    }
  }

  /** Asking only about the two ends is asking about every release between them. */
  lemma {:induction false} EndsDecide(gate: Gate, low: Version, high: Version)
    requires AtMost(low, high)
    ensures gate.HoldsThroughout(low, high) <==>
            forall v :: AtMost(low, v) && AtMost(v, high) ==> gate.Holds(Some(v))
  {
    LessIsTotal(low, low);
    LessIsTotal(high, high);
    if gate.HoldsThroughout(low, high) {
      forall v | AtMost(low, v) && AtMost(v, high) ensures gate.Holds(Some(v)) {
        if gate.since.Some? {
          MixedTransitive(gate.since.value, low, v);
        }
        if gate.until.Some? {
          MixedTransitive(v, high, gate.until.value);
        }
      }
    }
    if forall v :: AtMost(low, v) && AtMost(v, high) ==> gate.Holds(Some(v)) {
      assert gate.Holds(Some(low)) && gate.Holds(Some(high));
    }
  }

  const VALIDATED_MIN: Version := [4, 1, 2]
  const VALIDATED_MAX: Version := [4, 6, 0]

  /** A request field, and whether its column came with its acceptance. */
  datatype Field = Field(gate: Gate, columnGated: bool) {
    /** A field decides what to send: on an unknown release only what every validated one takes. */
    predicate SentOn(version: Option<Version>) {
      if version.None? then columnGated || gate.HoldsThroughout(VALIDATED_MIN, VALIDATED_MAX) else gate.Holds(version)
    }
  }

  /** A field sent to an unknown release is one that no validated release would refuse,
      unless the source can only carry it where the create takes it. */
  lemma {:induction false} UnknownReleaseIsSafe(field: Field)
    ensures field.SentOn(None) <==>
            field.columnGated
            || forall v :: AtMost([4, 1, 2], v) && AtMost(v, [4, 6, 0]) ==> field.gate.Holds(Some(v))
    ensures forall v :: field.SentOn(Some(v)) <==> field.gate.Holds(Some(v))
  {
    assert AtMost(VALIDATED_MIN, VALIDATED_MAX);
    EndsDecide(field.gate, VALIDATED_MIN, VALIDATED_MAX);
  }

  // ── as text ────────────────────────────────────────────────────────────────

  predicate IsDigit(c: char) {
    '0' <= c <= '9'
  }

  predicate AllDigits(s: string) {
    s != "" && forall i :: 0 <= i < |s| ==> IsDigit(s[i])
  }

  function Digit(n: nat): char
    requires n < 10
  {
    (n + '0' as int) as char
  }

  function FormatNat(n: nat): string {
    if n < 10 then [Digit(n)] else FormatNat(n / 10) + [Digit(n % 10)]
  }

  function ParseNat(s: string): nat
    requires forall i :: 0 <= i < |s| ==> IsDigit(s[i])
  {
    if s == "" then 0
    else
      assert IsDigit(s[|s| - 1]);
      ParseNat(s[..|s| - 1]) * 10 + DigitValue(s[|s| - 1])
  }

  function DigitValue(c: char): nat
    requires IsDigit(c)
  {
    c as int - '0' as int
  }

  function FormatVersion(v: Version): string {
    if v == [] then ""
    else if |v| == 1 then FormatNat(v[0])
    else FormatNat(v[0]) + "." + FormatVersion(v[1..])
  }

  predicate IsSpace(c: char) {
    c in " \t\n\r\U{000B}\U{000C}\U{001C}\U{001D}\U{001E}\U{001F}"
  }

  function StripFront(s: string): string {
    if s != "" && IsSpace(s[0]) then StripFront(s[1..]) else s
  }

  function StripBack(s: string): string {
    if s != "" && IsSpace(s[|s| - 1]) then StripBack(s[..|s| - 1]) else s
  }

  function StripV(s: string): string {
    if s != "" && s[0] == 'v' then StripV(s[1..]) else s
  }

  /** `s.split(c)[0]`. */
  function UpTo(s: string, c: char): string {
    if s == "" || s[0] == c then "" else [s[0]] + UpTo(s[1..], c)
  }

  /** `s.split(".")`. */
  function Parts(s: string): (parts: seq<string>)
    ensures parts != []
  {
    if s == "" then [""]
    else if s[0] == '.' then [""] + Parts(s[1..])
    else
      var rest := Parts(s[1..]);
      [[s[0]] + rest[0]] + rest[1..]
  }

  function Head(raw: string): string {
    UpTo(UpTo(StripV(StripBack(StripFront(raw))), '-'), '+')
  }

  function ParseVersion(raw: string): Option<Version> {
    var parts := Parts(Head(raw));
    if forall i :: 0 <= i < |parts| ==> AllDigits(parts[i]) then Some(Numbers(parts)) else None
  }

  function Numbers(parts: seq<string>): Version
    requires forall i :: 0 <= i < |parts| ==> AllDigits(parts[i])
  {
    seq(|parts|, i requires 0 <= i < |parts| && AllDigits(parts[i]) => ParseNat(parts[i]))
  }

  lemma {:induction false} NatRoundTrip(n: nat)
    ensures AllDigits(FormatNat(n)) && ParseNat(FormatNat(n)) == n
  {
    if n >= 10 {
      NatRoundTrip(n / 10);
      var s := FormatNat(n);
      assert s[..|s| - 1] == FormatNat(n / 10);
    } else {
      assert FormatNat(n)[..0] == "";
    }
  }

  predicate Plain(s: string) {
    forall i :: 0 <= i < |s| ==> IsDigit(s[i]) || s[i] == '.'
  }

  lemma {:induction false} FormatIsPlain(v: Version)
    ensures Plain(FormatVersion(v))
  {
    if v != [] {
      NatRoundTrip(v[0]);
      if |v| > 1 {
        FormatIsPlain(v[1..]);
      }
    }
  }

  lemma {:induction false} UpToNothing(s: string, c: char)
    requires Plain(s) && c in "-+"
    ensures UpTo(s, c) == s
  {
    if s != "" {
      assert forall i :: 0 <= i < |s[1..]| ==> s[1..][i] == s[i + 1];
      UpToNothing(s[1..], c);
      assert s == [s[0]] + s[1..];
    }
  }

  lemma {:induction false} PartsOfOne(s: string)
    requires '.' !in s
    ensures Parts(s) == [s]
  {
    if s != "" {
      PartsOfOne(s[1..]);
      assert [s[0]] + s[1..] == s;
    }
  }

  lemma {:induction false} PartsOfMore(head: string, rest: string)
    requires '.' !in head
    ensures Parts(head + "." + rest) == [head] + Parts(rest)
  {
    var s := head + "." + rest;
    if head == "" {
      assert s[1..] == rest;
    } else {
      assert s[1..] == head[1..] + "." + rest;
      PartsOfMore(head[1..], rest);
      var more := Parts(s[1..]);
      assert more[0] == head[1..] && more[1..] == Parts(rest);
      assert [s[0]] + head[1..] == head;
    }
  }

  function Formatted(v: Version): seq<string> {
    seq(|v|, i requires 0 <= i < |v| => FormatNat(v[i]))
  }

  lemma {:induction false} PartsOfVersion(v: Version)
    requires v != []
    ensures Parts(FormatVersion(v)) == Formatted(v)
  {
    NatRoundTrip(v[0]);
    if |v| == 1 {
      PartsOfOne(FormatNat(v[0]));
    } else {
      PartsOfVersion(v[1..]);
      PartsOfMore(FormatNat(v[0]), FormatVersion(v[1..]));
      assert Formatted(v) == [FormatNat(v[0])] + Formatted(v[1..]);
    }
  }

  /** A version is read back as it was written. */
  lemma {:induction false} VersionRoundTrip(v: Version)
    requires v != []
    ensures ParseVersion(FormatVersion(v)) == Some(v)
  {
    var s := FormatVersion(v);
    FormatIsPlain(v);
    assert StripFront(s) == s && StripBack(s) == s && StripV(s) == s;
    UpToNothing(s, '-');
    UpToNothing(s, '+');
    PartsOfVersion(v);
    forall i | 0 <= i < |v| ensures AllDigits(Parts(s)[i]) && ParseNat(Parts(s)[i]) == v[i] {
      NatRoundTrip(v[i]);
    }
    assert Numbers(Parts(s)) == v;
  }

  /** White space: tab to carriage return, and the separators up to the space itself. */
  ghost predicate Blank(s: string) {
    forall i :: 0 <= i < |s| ==> 9 <= s[i] as int <= 13 || 28 <= s[i] as int <= 32
  }

  lemma {:induction false} FrontStripped(before: string, s: string)
    requires Blank(before) && s != "" && (s[0] == 'v' || IsDigit(s[0]))
    ensures StripFront(before + s) == s
  {
    if before == "" {
      assert before + s == s;
    } else {
      assert (before + s)[1..] == before[1..] + s;
      FrontStripped(before[1..], s);
    }
  }

  lemma {:induction false} BackStripped(s: string, after: string)
    requires Blank(after) && s != "" && !IsSpace(s[|s| - 1])
    ensures StripBack(s + after) == s
    decreases |after|
  {
    if after == "" {
      assert s + after == s;
    } else {
      assert (s + after)[..|s + after| - 1] == s + after[..|after| - 1];
      BackStripped(s, after[..|after| - 1]);
    }
  }

  lemma {:induction false} UpToFirst(s: string, rest: string, c: char)
    requires c !in s && (rest == "" || rest[0] == c)
    ensures UpTo(s + rest, c) == s
  {
    if s == "" {
      assert s + rest == rest;
    } else {
      assert (s + rest)[1..] == s[1..] + rest;
      UpToFirst(s[1..], rest, c);
    }
  }

  /** Letters `v`, any number of them. */
  ghost predicate Vs(s: string) {
    forall i :: 0 <= i < |s| ==> s[i] == 'v'
  }

  /** A release is read whatever stands around it: white space, a `v`, a build or a pre-release. */
  lemma {:induction false} ReleaseIsRead(before: string, vs: string, v: Version, suffix: string, after: string)
    requires v != [] && Blank(before) && Vs(vs) && Blank(after)
    requires suffix == "" || ((suffix[0] == '-' || suffix[0] == '+') && !IsSpace(suffix[|suffix| - 1]))
    ensures ParseVersion(before + (vs + FormatVersion(v) + suffix) + after) == Some(v)
  {
    var text := FormatVersion(v);
    FormatIsPlain(v);
    FormatStarts(v);
    HeadOf(before, vs, text, suffix, after);
    VersionRoundTrip(v);
    PlainHead(text);
  }

  /** And nothing else is read: what is left between the two is figures, and single dots that
      stand between figures. */
  lemma {:induction false} OnlyReleasesAreRead(raw: string)
    ensures ParseVersion(raw).Some? <==> var s := Head(raw);
            && s != "" && s[0] != '.' && s[|s| - 1] != '.'
            && (forall i :: 0 <= i < |s| ==> s[i] == '.' || '0' <= s[i] <= '9')
            && forall i, j :: 0 <= i < |s| && j == i + 1 && j < |s| ==> s[i] != '.' || s[j] != '.'
  {
    DottedParts(Head(raw));
  }

  ghost predicate Dotted(s: string) {
    && s != "" && s[0] != '.' && s[|s| - 1] != '.'
    && (forall i :: 0 <= i < |s| ==> s[i] == '.' || '0' <= s[i] <= '9')
    && forall i, j :: 0 <= i < |s| && j == i + 1 && j < |s| ==> s[i] != '.' || s[j] != '.'
  }

  ghost predicate AllNumbers(parts: seq<string>) {
    forall i :: 0 <= i < |parts| ==> AllDigits(parts[i])
  }

  lemma {:induction false} DottedParts(s: string)
    ensures AllNumbers(Parts(s)) <==> Dotted(s)
  {
    if s == "" || s[0] == '.' {
      assert !AllDigits(Parts(s)[0]);
    } else {
      var rest := Parts(s[1..]);
      DottedParts(s[1..]);
      DottedMore(s);
      assert AllNumbers(Parts(s)) <==> AllDigits([s[0]] + rest[0]) && AllNumbers(rest[1..]) by {
        NumbersCons([s[0]] + rest[0], rest[1..]);
      }
      assert [rest[0]] + rest[1..] == rest;
      NumbersCons(rest[0], rest[1..]);
      DigitsCons(s[0], rest[0]);
      if |s| > 1 && s[1] == '.' {
        DottedParts(s[2..]);
        assert rest[0] == "" && rest[1..] == Parts(s[2..]);
      }
    }
  }

  lemma {:induction false} NumbersCons(one: string, more: seq<string>)
    ensures AllNumbers([one] + more) <==> AllDigits(one) && AllNumbers(more)
  {
    var all := [one] + more;
    assert all[0] == one;
    assert forall i :: 0 <= i < |more| ==> more[i] == all[i + 1];
  }

  lemma {:induction false} DigitsCons(c: char, s: string)
    ensures AllDigits([c] + s) <==> IsDigit(c) && (s == "" || AllDigits(s))
  {
    var all := [c] + s;
    assert all[0] == c;
    assert forall i :: 0 <= i < |s| ==> s[i] == all[i + 1];
  }

  lemma {:induction false} DottedMore(s: string)
    requires s != "" && s[0] != '.'
    ensures |s| == 1 ==> (Dotted(s) <==> IsDigit(s[0]))
    ensures |s| > 1 && s[1] != '.' ==> (Dotted(s) <==> IsDigit(s[0]) && Dotted(s[1..]))
    ensures |s| > 1 && s[1] == '.' ==> (Dotted(s) <==> IsDigit(s[0]) && Dotted(s[2..]))
  {
    var n := if |s| > 1 && s[1] == '.' then 2 else 1;
    var t := s[n..];
    assert forall i :: 0 <= i < |t| ==> t[i] == s[i + n];
    if IsDigit(s[0]) && Dotted(t) {
      forall i, j | 0 <= i < |s| && j == i + 1 && j < |s| ensures s[i] != '.' || s[j] != '.' {
        if i >= n { assert t[i - n] == s[i] && t[j - n] == s[j]; }
      }
    }
    if Dotted(s) && t != "" {
      forall i, j | 0 <= i < |t| && j == i + 1 && j < |t| ensures t[i] != '.' || t[j] != '.' {
        assert s[i + n] == t[i] && s[j + n] == t[j];
      }
    }
  }

  lemma {:induction false} PlainHead(text: string)
    requires Plain(text) && text != "" && IsDigit(text[0]) && IsDigit(text[|text| - 1])
    ensures Head(text) == text
  {
    assert StripFront(text) == text && StripBack(text) == text && StripV(text) == text;
    UpToNothing(text, '-');
    UpToNothing(text, '+');
  }

  lemma {:induction false} HeadOf(before: string, vs: string, text: string, suffix: string, after: string)
    requires Vs(vs) && Plain(text) && text != "" && IsDigit(text[0]) && IsDigit(text[|text| - 1]) && Blank(before) && Blank(after)
    requires suffix == "" || ((suffix[0] == '-' || suffix[0] == '+') && !IsSpace(suffix[|suffix| - 1]))
    ensures Head(before + (vs + text + suffix) + after) == text
  {
    var core := vs + text + suffix;
    assert core[0] == if vs != "" then 'v' else text[0];
    assert core[|core| - 1] == if suffix == "" then text[|text| - 1] else suffix[|suffix| - 1];
    Stripped(before, core, after);
    Unlettered(vs, text + suffix);
    assert core == vs + (text + suffix) && (text + suffix)[0] == text[0];
    Unsuffixed(text, suffix);
  }

  lemma {:induction false} Stripped(before: string, core: string, after: string)
    requires Blank(before) && Blank(after) && core != "" && (core[0] == 'v' || IsDigit(core[0])) && !IsSpace(core[|core| - 1])
    ensures StripBack(StripFront(before + core + after)) == core
  {
    assert before + core + after == before + (core + after);
    assert (core + after)[0] == core[0];
    FrontStripped(before, core + after);
    BackStripped(core, after);
  }

  lemma {:induction false} FormatStarts(v: Version)
    requires v != []
    ensures var s := FormatVersion(v); s != "" && IsDigit(s[0]) && IsDigit(s[|s| - 1])
  {
    NatRoundTrip(v[0]);
    if |v| > 1 {
      FormatStarts(v[1..]);
      assert FormatVersion(v)[0] == FormatNat(v[0])[0];
      assert FormatVersion(v)[|FormatVersion(v)| - 1] == FormatVersion(v[1..])[|FormatVersion(v[1..])| - 1];
    }
  }

  lemma {:induction false} Unlettered(vs: string, s: string)
    requires Vs(vs) && s != "" && s[0] != 'v'
    ensures StripV(vs + s) == s
  {
    if vs == "" {
      assert vs + s == s;
    } else {
      assert (vs + s)[1..] == vs[1..] + s;
      Unlettered(vs[1..], s);
    }
  }

  lemma {:induction false} Unsuffixed(text: string, suffix: string)
    requires Plain(text) && (suffix == "" || suffix[0] == '-' || suffix[0] == '+')
    ensures UpTo(UpTo(text + suffix, '-'), '+') == text
  {
    assert '-' !in text && '+' !in text;
    if suffix == "" || suffix[0] == '-' {
      UpToFirst(text, suffix, '-');
      UpToFirst(text, "", '+');
      assert text + "" == text;
    } else {
      UpToKeeps(text, suffix);
      UpToFirst(text, UpTo(suffix, '-'), '+');
    }
  }

  lemma {:induction false} UpToKeeps(text: string, suffix: string)
    requires Plain(text) && suffix != "" && suffix[0] == '+'
    ensures UpTo(text + suffix, '-') == text + UpTo(suffix, '-') && UpTo(suffix, '-') != "" && UpTo(suffix, '-')[0] == '+'
  {
    if text == "" {
      assert text + suffix == suffix;
    } else {
      assert (text + suffix)[1..] == text[1..] + suffix;
      assert forall i :: 0 <= i < |text[1..]| ==> text[1..][i] == text[i + 1];
      UpToKeeps(text[1..], suffix);
    }
  }
}
