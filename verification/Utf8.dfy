/** UTF-8 (section 3 of RFC 3629): encoding, strict decoding, and where a text may be cut. */
module Utf8 {
  import opened Wrappers

  type Byte = b: int | 0 <= b < 256

  function EncodeChar(c: char): (b: seq<Byte>)
    ensures 1 <= |b| <= 4
  {
    var u := c as int;
    var v := u / 64;
    var w := v / 64;
    if u < 0x80 then [u]
    else if u < 0x800 then [0xC0 + v, 0x80 + u % 64]
    else if u < 0x10000 then [0xE0 + w, 0x80 + v % 64, 0x80 + u % 64]
    else [0xF0 + w / 64, 0x80 + w % 64, 0x80 + v % 64, 0x80 + u % 64]
  }

  function Encode(s: string): seq<Byte> {
    if s == "" then [] else EncodeChar(s[0]) + Encode(s[1..])
  }

  predicate Continues(b: Byte) {
    0x80 <= b < 0xC0
  }

  /** How many bytes a first byte announces; none, if no character begins with it. */
  function Announced(b: Byte): (n: nat)
    ensures n <= 4
  {
    if b < 0x80 then 1
    else if b < 0xC0 then 0
    else if b < 0xE0 then 2
    else if b < 0xF0 then 3
    else if b < 0xF8 then 4
    else 0
  }

  predicate IsScalar(u: int) {
    0 <= u < 0xD800 || 0xE000 <= u < 0x110000
  }

  function Shift6(high: int, low: int): int {
    high * 64 + low - 0x80
  }

  /** The number that the bits of a character's bytes make. */
  function Bits(b: seq<Byte>): int
    requires 1 <= |b| <= 4
  {
    var first: int := b[0];
    if |b| == 1 then first
    else if |b| == 2 then Shift6(first - 0xC0, b[1])
    else if |b| == 3 then Shift6(Shift6(first - 0xE0, b[1]), b[2])
    else Shift6(Shift6(Shift6(first - 0xF0, b[1]), b[2]), b[3])
  }

  /** The character at the front, if the bytes there are the shortest form of one. */
  function DecodeChar(b: seq<Byte>): (r: Option<char>)
    requires b != []
    ensures r.Some? ==> EncodeChar(r.value) <= b
  {
    var n := Announced(b[0]);
    if n == 0 || n > |b| then None
    else
      var u := Bits(b[..n]);
      if IsScalar(u) && EncodeChar(u as char) == b[..n] then Some(u as char) else None
  }

  /** Strict decoding: the whole of it, or nothing. */
  function Decode(b: seq<Byte>): Option<string>
    decreases |b|
  {
    if b == [] then Some("")
    else
      var c := DecodeChar(b);
      if c.None? then None
      else
        var rest := Decode(b[|EncodeChar(c.value)|..]);
        if rest.None? then None else Some([c.value] + rest.value)
  }

  lemma {:induction false} FirstByte(c: char)
    ensures Announced(EncodeChar(c)[0]) == |EncodeChar(c)| && !Continues(EncodeChar(c)[0])
    ensures forall i :: 0 < i < |EncodeChar(c)| ==> Continues(EncodeChar(c)[i])
  {
  }

  lemma {:induction false} BitsOf(c: char)
    ensures Bits(EncodeChar(c)) == c as int && IsScalar(c as int)
  {
  }

  lemma {:induction false} CharDecodes(c: char, rest: seq<Byte>)
    ensures DecodeChar(EncodeChar(c) + rest) == Some(c)
  {
    var e := EncodeChar(c);
    var b := e + rest;
    FirstByte(c);
    BitsOf(c);
    assert b[0] == e[0] && b[..|e|] == e;
  }

  lemma {:induction false} EncodeConcat(s: string, t: string)
    ensures Encode(s + t) == Encode(s) + Encode(t)
  {
    if s == "" {
      assert s + t == t;
    } else {
      assert (s + t)[1..] == s[1..] + t;
      EncodeConcat(s[1..], t);
    }
  }

  lemma {:induction false} EncodeDecodes(s: string)
    ensures Decode(Encode(s)) == Some(s)
  {
    if s != "" {
      var e, rest := EncodeChar(s[0]), Encode(s[1..]);
      CharDecodes(s[0], rest);
      assert (e + rest)[|e|..] == rest;
      EncodeDecodes(s[1..]);
      assert s == [s[0]] + s[1..];
    }
  }

  lemma {:induction false} DecodeHead(b: seq<Byte>) returns (c: char, rest: seq<Byte>)
    requires b != [] && Decode(b).Some?
    ensures b == EncodeChar(c) + rest && |rest| < |b|
    ensures Decode(rest).Some? && Decode(b).value == [c] + Decode(rest).value
  {
    c := DecodeChar(b).value;
    rest := b[|EncodeChar(c)|..];
  }

  lemma {:induction false} DecodeEncodes(b: seq<Byte>)
    requires Decode(b).Some?
    ensures Encode(Decode(b).value) == b
    decreases |b|
  {
    if b != [] {
      var c, rest := DecodeHead(b);
      DecodeEncodes(rest);
      EncodeCons(c, Decode(rest).value);
    }
  }

  lemma {:induction false} EncodeCons(c: char, s: string)
    ensures Encode([c] + s) == EncodeChar(c) + Encode(s)
  {
    assert ([c] + s)[1..] == s;
  }

  /** Decoding succeeds on the encodings of texts and on nothing else, and gives back the text. */
  lemma {:induction false} DecodeIsInverse(b: seq<Byte>, s: string)
    ensures Decode(b) == Some(s) <==> Encode(s) == b
  {
    if Decode(b) == Some(s) {
      DecodeEncodes(b);
    }
    if Encode(s) == b {
      EncodeDecodes(s);
    }
  }

  // ── cuts ───────────────────────────────────────────────────────────────────

  /** The first `n` bytes of a text are whole characters. */
  ghost predicate OnBoundary(s: string, n: nat) {
    exists k: nat :: BoundaryAt(s, n, k)
  }

  ghost predicate BoundaryAt(s: string, n: nat, k: nat) {
    k <= |s| && |Encode(s[..k])| == n
  }

  predicate Starts(b: seq<Byte>) {
    b == [] || !Continues(b[0])
  }

  lemma {:induction false} EncodeStarts(s: string, n: nat)
    requires n <= |Encode(s)|
    ensures Starts(Encode(s)[..n])
  {
    if s != "" && n > 0 {
      FirstByte(s[0]);
    }
  }

  lemma {:induction false} BoundaryCuts(s: string, n: nat, k: nat)
    requires BoundaryAt(s, n, k)
    ensures n <= |Encode(s)| && Encode(s)[..n] == Encode(s[..k]) && Encode(s)[n..] == Encode(s[k..])
  {
    EncodeConcat(s[..k], s[k..]);
    assert s == s[..k] + s[k..];
  }

  lemma {:induction false} NextBoundary(s: string, n: nat, k: nat)
    requires s != "" && BoundaryAt(s[1..], n, k)
    ensures BoundaryAt(s, |EncodeChar(s[0])| + n, k + 1)
  {
    assert s[..k + 1][1..] == s[1..][..k];
    assert s[..k + 1][0] == s[0];
  }

  /** A cut before a byte that continues no character is on a boundary. */
  lemma {:induction false} StartIsBoundary(s: string, n: nat)
    requires n <= |Encode(s)| && Starts(Encode(s)[n..])
    ensures OnBoundary(s, n)
  {
    if n == 0 {
      assert s[..0] == "";
      assert BoundaryAt(s, 0, 0);
    } else if n < |EncodeChar(s[0])| {
      InsideAChar(s, n);
    } else {
      var e, rest := EncodeChar(s[0]), Encode(s[1..]);
      assert Encode(s)[n..] == rest[n - |e|..];
      StartIsBoundary(s[1..], n - |e|);
      var k: nat :| BoundaryAt(s[1..], n - |e|, k);
      NextBoundary(s, n - |e|, k);
    }
  }

  lemma {:induction false} InsideAChar(s: string, n: nat)
    requires s != "" && 0 < n < |EncodeChar(s[0])|
    ensures n < |Encode(s)| && !Starts(Encode(s)[n..])
  {
    FirstByte(s[0]);
    assert Encode(s)[n..][0] == EncodeChar(s[0])[n];
  }

  lemma {:induction false} FrontDecodes(s: string, n: nat)
    requires n <= |Encode(s)| && Starts(Encode(s)[n..])
    ensures Decode(Encode(s)[..n]).Some?
  {
    StartIsBoundary(s, n);
    var k: nat :| BoundaryAt(s, n, k);
    BoundaryCuts(s, n, k);
    EncodeDecodes(s[..k]);
  }

  /** Undecodable bytes stay so whatever whole or torn text is written after them. */
  lemma {:induction false} StaysUndecodable(b: seq<Byte>, more: seq<Byte>)
    requires Decode(b).None? && Starts(more)
    ensures Decode(b + more).None?
  {
    var all := b + more;
    if Decode(all).Some? {
      DecodeEncodes(all);
      assert all[..|b|] == b && all[|b|..] == more;
      FrontDecodes(Decode(all).value, |b|);
    }
  }

  /** A text before what was decoded, if anything was. */
  function After(t: string, r: Option<string>): Option<string> {
    if r.None? then None else Some(t + r.value)
  }

  lemma {:induction false} SameFirst(c: char, d: char, x: seq<Byte>, y: seq<Byte>)
    requires EncodeChar(c) + x <= EncodeChar(d) + y
    ensures c == d && x <= y
  {
    var all := EncodeChar(d) + y;
    var left := all[|EncodeChar(c)|..];
    assert all == EncodeChar(c) + left;
    CharDecodes(c, left);
    CharDecodes(d, y);
    assert left == y;
    assert (EncodeChar(c) + x)[|EncodeChar(c)|..] == x;
  }

  lemma {:induction false} PrefixEncodes(u: string, s: string)
    requires Encode(u) <= Encode(s)
    ensures u <= s
  {
    if u != "" {
      assert s != "";
      SameFirst(u[0], s[0], Encode(u[1..]), Encode(s[1..]));
      PrefixEncodes(u[1..], s[1..]);
      assert u == [u[0]] + u[1..] && s == [s[0]] + s[1..];
    }
  }

  lemma {:induction false} RestDecodes(t: string, b: seq<Byte>)
    requires Decode(Encode(t) + b).Some?
    ensures Decode(b).Some?
  {
    var all := Encode(t) + b;
    var s := Decode(all).value;
    DecodeEncodes(all);
    PrefixEncodes(t, s);
    var u := s[|t|..];
    assert s == t + u;
    EncodeConcat(t, u);
    assert all[|Encode(t)|..] == b;
    EncodeDecodes(u);
  }

  /** Whole characters in front change nothing of what follows them. */
  lemma {:induction false} ConcatDecodes(t: string, b: seq<Byte>)
    ensures Decode(Encode(t) + b) == After(t, Decode(b))
  {
    if Decode(b).Some? {
      DecodeEncodes(b);
      EncodeConcat(t, Decode(b).value);
      EncodeDecodes(t + Decode(b).value);
    } else if Decode(Encode(t) + b).Some? {
      RestDecodes(t, b);
    }
  }

  /** The front of a text's bytes decodes if and only if it ends on a boundary. */
  lemma {:induction false} CutDecodes(s: string, n: nat)
    requires n <= |Encode(s)|
    ensures Decode(Encode(s)[..n]).Some? <==> OnBoundary(s, n)
    ensures forall k: nat :: BoundaryAt(s, n, k) ==> Decode(Encode(s)[..n]) == Some(s[..k])
  {
    var b := Encode(s)[..n];
    forall k: nat | BoundaryAt(s, n, k) ensures Decode(b) == Some(s[..k]) {
      BoundaryCuts(s, n, k);
      EncodeDecodes(s[..k]);
    }
    if Decode(b).Some? {
      var u := Decode(b).value;
      DecodeEncodes(b);
      PrefixEncodes(u, s);
      assert s[..|u|] == u;
      assert BoundaryAt(s, n, |u|);
    }
  }

  predicate Ascii(s: string) {
    forall i :: 0 <= i < |s| ==> s[i] as int < 0x80
  }

  lemma {:induction false} AsciiLength(s: string)
    requires Ascii(s)
    ensures |Encode(s)| == |s|
  {
    if s != "" {
      AsciiLength(s[1..]);
    }
  }

  /** Every cut of a text is on a boundary if and only if the text is ASCII. */
  lemma {:induction false} AsciiIsAllBoundaries(s: string)
    ensures Ascii(s) <==> forall n: nat :: n <= |Encode(s)| ==> OnBoundary(s, n)
  {
    if Ascii(s) {
      AsciiLength(s);
      forall n: nat | n <= |Encode(s)| ensures OnBoundary(s, n) {
        AsciiLength(s[..n]);
        assert BoundaryAt(s, n, n);
      }
    } else {
      var n := BadCut(s);
    }
  }

  /** In any other text some cut is inside a character. */
  lemma {:induction false} BadCut(s: string) returns (n: nat)
    requires !Ascii(s)
    ensures n < |Encode(s)| && !OnBoundary(s, n)
  {
    var i :| 0 <= i < |s| && s[i] as int >= 0x80;
    n := |Encode(s[..i])| + 1;
    assert s == s[..i] + s[i..];
    EncodeConcat(s[..i], s[i..]);
    var e := EncodeChar(s[i]);
    FirstByte(s[i]);
    assert Encode(s[i..]) == e + Encode(s[i..][1..]);
    assert Encode(s)[n] == e[1];
    assert !Starts(Encode(s)[n..]);
    if OnBoundary(s, n) {
      BoundaryStarts(s, n);
    }
  }

  lemma {:induction false} BoundaryStarts(s: string, n: nat)
    requires OnBoundary(s, n)
    ensures n <= |Encode(s)| && Starts(Encode(s)[n..])
  {
    var k: nat :| BoundaryAt(s, n, k);
    BoundaryCuts(s, n, k);
    var rest := Encode(s[k..]);
    EncodeStarts(s[k..], |rest|);
    assert rest[..|rest|] == rest;
  }
}
