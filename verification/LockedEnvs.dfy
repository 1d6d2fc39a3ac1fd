/** Which records of a printed dotenv file may be trusted, and what a trusted one holds. */
module LockedEnvs {
  import opened Wrappers
  import opened Dotenv
  import opened Text
  import Encoding = EnvEncoding

  // ── the file Coolify prints ────────────────────────────────────────────────

  datatype Written = Written(key: string, raw: string)

  predicate ValidKey(key: string) {
    key != "" && '=' !in key && '\n' !in key
  }

  /** One `KEY=raw` after the other; the last one ends in a newline or not. */
  function Print(w: seq<Written>, terminated: bool): string
    decreases |w|, 1
  {
    if w == [] then "" else w[0].key + "=" + w[0].raw + Tail(w, terminated)
  }

  function Tail(w: seq<Written>, terminated: bool): string
    requires w != []
    decreases |w|, 0
  {
    if |w| == 1 && !terminated then "" else "\n" + Print(w[1..], terminated)
  }

  // ── the shapes a raw text can take ─────────────────────────────────────────

  /** The exact form: enclosed in double quotes, every inner quote escaped. */
  predicate ExactForm(raw: string) {
    Encoding.Quoted(raw, '"') && Encoding.UnescapeInner(raw[1..|raw| - 1]).Some?
  }

  predicate NoQuoteEndsALine(s: string) {
    forall i :: 0 <= i < |s| - 1 && s[i] == '\'' ==> s[i + 1] != '\n'
  }

  /** The literal form, with no inner `'` right before a newline. */
  predicate LiteralForm(raw: string) {
    Encoding.Quoted(raw, '\'') && NoQuoteEndsALine(raw[1..|raw| - 1])
  }

  /** No quote opens the text: an escaped legacy value, or JSON. */
  predicate Unopened(raw: string) {
    raw == "" || raw[0] !in "\"'"
  }

  /** The shapes an encoded value takes. */
  predicate Encodable(raw: string) {
    ExactForm(raw) || Encoding.Quoted(raw, '\'') || Unopened(raw)
  }

  /** The forms that end exactly where the scanner ends them. */
  predicate Whole(raw: string) {
    ExactForm(raw) || LiteralForm(raw) || (Unopened(raw) && '\n' !in raw)
  }

  /** Where the record of an encoded value is cut: at the value's end or at a newline in it. */
  function CutAt(raw: string): nat
    requires Encodable(raw)
  {
    if ExactForm(raw) then |raw|
    else if Encoding.Quoted(raw, '\'') then
      var close := ClosingSingleQuote(raw[1..]);
      if close.None? then |raw| else close.value + 2
    else LineEnd(raw)
  }

  /** The quote that opens the value of the first record of a text, if one does, is closed
      within that text. */
  predicate ClosesWithin(t: string)
    requires t != ""
  {
    var n := KeyLength(t);
    n.None? || QuoteCloses(t[n.value + 1..])
  }

  predicate QuoteCloses(v: string) {
    if v != "" && v[0] == '"' then ClosingDoubleQuote(v[1..]).Some?
    else if v != "" && v[0] == '\'' then ClosingSingleQuote(v[1..]).Some?
    else true
  }

  /** Read record by record, a text leaves no quote open at its end. */
  predicate Aligned(t: string)
    decreases |t|
  {
    t == "" || (ClosesWithin(t) && Aligned(ScanOne(t).rest))
  }

  /** What an encoded value leaves after the line its record ends on. */
  function Spill(raw: string): string
    requires Encodable(raw)
  {
    Drop(raw, CutAt(raw) + 1)
  }

  /** What a value leaves behind its own record opens no quote into the next line. */
  predicate Delimitable(raw: string) {
    Encodable(raw) && Aligned(Spill(raw))
  }

  predicate Legible(one: Written) {
    ValidKey(one.key) && Delimitable(one.raw)
  }

  ghost predicate Readable(w: seq<Written>) {
    forall i :: 0 <= i < |w| ==> Legible(w[i])
  }

  /** A file whose every record is delimitable. A file without a final newline must not
      end in a plain value whose only newline is its last character. */
  ghost predicate Printed(w: seq<Written>, terminated: bool) {
    && Readable(w)
    && (!terminated && w != [] ==> !CutSilently(w[|w| - 1].raw))
  }

  predicate CutSilently(raw: string) {
    Unopened(raw) && LineEnd(raw) + 1 == |raw|
  }

  predicate DistinctKeys(w: seq<Written>) {
    forall i, j :: 0 <= i < j < |w| ==> w[i].key != w[j].key
  }

  // ── scanning one printed record ────────────────────────────────────────────

  predicate AtBreak(tail: string) {
    tail == "" || tail[0] == '\n'
  }

  lemma {:induction false} ClosesExact(inner: string, tail: string)
    requires Encoding.UnescapeInner(inner).Some?
    ensures ClosingDoubleQuote(inner + "\"" + tail) == Some(|inner|)
    decreases |inner|
  {
    var t := inner + "\"" + tail;
    if inner == "" {
    } else if inner[0] == '\\' {
      ClosesExact(inner[2..], tail);
      assert t[2..] == inner[2..] + "\"" + tail;
    } else {
      ClosesExact(inner[1..], tail);
      assert t[1..] == inner[1..] + "\"" + tail;
    }
  }

  lemma {:induction false} ScanExact(raw: string, tail: string)
    requires ExactForm(raw) && AtBreak(tail)
    ensures ScanValue(raw + tail) == Value(Record(raw, true), false, Drop(tail, 1))
  {
    var inner := raw[1..|raw| - 1];
    var v := raw + tail;
    ClosesExact(inner, tail);
    assert v[1..] == inner + "\"" + tail;
    assert v[|raw|..] == tail && v[..|raw|] == raw;
    assert v[0] == '"' && ScanValue(v) == ScanDouble(v);
    DropConcat(raw, tail, 1);
  }

  lemma {:induction false} DropConcat(a: string, b: string, n: nat)
    ensures Drop(a + b, |a| + n) == Drop(b, n)
  {
  }

  lemma {:induction false} SplitConcat(a: string, b: string, n: nat)
    requires n <= |a|
    ensures (a + b)[n..] == a[n..] + b && (a + b)[..n] == a[..n]
  {
  }

  lemma {:induction false} ClosesLiteral(inner: string, tail: string)
    requires AtBreak(tail)
    ensures ClosingSingleQuote(inner + "'" + tail).Some?
    ensures ClosingSingleQuote(inner + "'" + tail).value <= |inner|
    ensures ClosingSingleQuote(inner + "'" + tail) == Some(|inner|) <==> NoQuoteEndsALine(inner)
    decreases |inner|
  {
    var t := inner + "'" + tail;
    if inner != "" {
      ClosesLiteral(inner[1..], tail);
      assert t[1..] == inner[1..] + "'" + tail;
      assert NoQuoteEndsALine(inner) <==>
             NoQuoteEndsALine(inner[1..]) && !(inner[0] == '\'' && |inner| > 1 && inner[1] == '\n') by {
        assert forall i :: 0 < i < |inner| ==> inner[i] == inner[1..][i - 1];
        if NoQuoteEndsALine(inner[1..]) && !(inner[0] == '\'' && |inner| > 1 && inner[1] == '\n') {
          forall i | 0 <= i < |inner| - 1 && inner[i] == '\'' ensures inner[i + 1] != '\n' {
            if i > 0 { assert inner[1..][i - 1] == '\''; assert inner[1..][i] != '\n'; }
          }
        }
        if NoQuoteEndsALine(inner) {
          forall i | 0 <= i < |inner[1..]| - 1 && inner[1..][i] == '\'' ensures inner[1..][i + 1] != '\n' {
            assert inner[i + 1] == '\'';
          }
        }
      }
    }
  }

  lemma {:induction false} ScanLiteral(raw: string, tail: string)
    requires Encoding.Quoted(raw, '\'') && AtBreak(tail)
    ensures !ScanValue(raw + tail).record.closed
    ensures LiteralForm(raw) ==> ScanValue(raw + tail) == Value(Record(raw, false), false, Drop(tail, 1))
    ensures ScanValue(raw + tail).record.raw == raw <==> LiteralForm(raw)
  {
    var inner := raw[1..|raw| - 1];
    var v := raw + tail;
    ClosesLiteral(inner, tail);
    assert v[1..] == inner + "'" + tail;
    assert v[..|raw|] == raw;
    assert v[0] == '\'' && ScanValue(v) == ScanSingle(v);
    DropConcat(raw, tail, 1);
  }

  lemma {:induction false} LineEndConcat(raw: string, tail: string)
    requires AtBreak(tail)
    ensures LineEnd(raw + tail) == LineEnd(raw)
    ensures LineEnd(raw) == |raw| <==> '\n' !in raw
  {
    if raw != "" {
      assert (raw + tail)[1..] == raw[1..] + tail;
      LineEndConcat(raw[1..], tail);
      assert raw == [raw[0]] + raw[1..];
    } else {
      assert raw + tail == tail;
    }
  }

  lemma {:induction false} ScanPlainRaw(raw: string, tail: string)
    requires raw == "" || raw[0] !in "\"'"
    requires AtBreak(tail)
    ensures ScanValue(raw + tail) == Value(Record(raw[..LineEnd(raw)], false), false, Drop(raw + tail, LineEnd(raw) + 1))
    ensures ScanValue(raw + tail).record.raw == raw <==> '\n' !in raw
    ensures '\n' !in raw ==> Drop(raw + tail, LineEnd(raw) + 1) == Drop(tail, 1)
  {
    LineEndConcat(raw, tail);
    var v := raw + tail;
    assert v[..LineEnd(raw)] == raw[..LineEnd(raw)];
    assert raw[..|raw|] == raw;
    DropConcat(raw, tail, 1);
  }

  lemma {:induction false} ClosingSingleConcat(v: string, tail: string)
    requires AtBreak(tail) && ClosingSingleQuote(v).Some?
    ensures ClosingSingleQuote(v + tail) == ClosingSingleQuote(v)
  {
    var t := v + tail;
    if !(v[0] == '\'' && (|v| == 1 || v[1] == '\n')) {
      assert t[1..] == v[1..] + tail;
      ClosingSingleConcat(v[1..], tail);
    }
  }

  lemma {:induction false} ClosingDoubleConcat(v: string, tail: string)
    requires ClosingDoubleQuote(v).Some?
    ensures ClosingDoubleQuote(v + tail) == ClosingDoubleQuote(v)
    decreases |v|
  {
    var t := v + tail;
    if v[0] == '\\' {
      assert t[2..] == v[2..] + tail;
      ClosingDoubleConcat(v[2..], tail);
    } else if v[0] != '"' {
      assert t[1..] == v[1..] + tail;
      ClosingDoubleConcat(v[1..], tail);
    }
  }

  lemma {:induction false} KeyRunConcat(t: string, tail: string)
    requires AtBreak(tail)
    ensures KeyRun(t + tail) == KeyRun(t)
  {
    if t == "" {
      assert t + tail == tail;
    } else if t[0] != '=' && t[0] != '\n' {
      assert (t + tail)[1..] == t[1..] + tail;
      KeyRunConcat(t[1..], tail);
    }
  }

  lemma {:induction false} KeyLengthConcat(t: string, tail: string)
    requires AtBreak(tail)
    ensures KeyLength(t + tail) == KeyLength(t)
  {
    KeyRunConcat(t, tail);
    var n := KeyRun(t);
    if n < |t| { assert (t + tail)[n] == t[n]; }
  }

  /** A value read up to the end of a line, with that line's number of characters. */
  ghost predicate ReadTo(v: string, record: Record, anomaly: bool, e: nat) {
    ScanValue(v) == Value(record, anomaly, Drop(v, e + 1))
  }

  lemma {:induction false} PlainConcat(v: string, tail: string)
    requires AtBreak(tail) && Unopened(v)
    ensures var e := LineEnd(v);
            ReadTo(v, Record(v[..e], false), false, e) && ReadTo(v + tail, Record(v[..e], false), false, e)
  {
    LineEndConcat(v, tail);
    assert (v + tail)[..LineEnd(v)] == v[..LineEnd(v)];
  }

  lemma {:induction false} SingleConcat(v: string, tail: string) returns (e: nat)
    requires AtBreak(tail) && v != "" && v[0] == '\'' && ClosingSingleQuote(v[1..]).Some?
    ensures e <= |v|
    ensures ReadTo(v, Record(v[..e], false), false, e) && ReadTo(v + tail, Record(v[..e], false), false, e)
  {
    ClosingSingleConcat(v[1..], tail);
    SplitConcat(v, tail, 1);
    e := ClosingSingleQuote(v[1..]).value + 2;
    SplitConcat(v, tail, e);
  }

  lemma {:induction false} LineEndConcatAt(v: string, tail: string, n: nat)
    requires AtBreak(tail) && n <= |v|
    ensures LineEnd((v + tail)[n..]) == LineEnd(v[n..])
  {
    SplitConcat(v, tail, n);
    LineEndConcat(v[n..], tail);
  }

  lemma {:induction false} ClosingDoubleConcatAt(v: string, tail: string)
    requires v != "" && ClosingDoubleQuote(v[1..]).Some?
    ensures ClosingDoubleQuote((v + tail)[1..]) == ClosingDoubleQuote(v[1..])
  {
    SplitConcat(v, tail, 1);
    ClosingDoubleConcat(v[1..], tail);
  }

  lemma {:induction false} DoubleReads(v: string, c: nat, line: nat)
    requires v != "" && v[0] == '"' && ClosingDoubleQuote(v[1..]) == Some(c)
    requires c + 2 <= |v| && line == LineEnd(v[c + 2..])
    ensures c + 2 + line <= |v|
    ensures ReadTo(v, Record(v[..c + 2 + line], line == 0), line != 0, c + 2 + line)
  {
    DoubleEnds(v, c);
  }

  lemma {:induction false} DoubleAgain(v: string, tail: string, c: nat, line: nat)
    requires AtBreak(tail) && v != "" && v[0] == '"' && ClosingDoubleQuote(v[1..]) == Some(c)
    requires c + 2 + line <= |v| && line == LineEnd(v[c + 2..])
    ensures ReadTo(v + tail, Record(v[..c + 2 + line], line == 0), line != 0, c + 2 + line)
  {
    ClosingDoubleConcatAt(v, tail);
    LineEndConcatAt(v, tail, c + 2);
    DoubleReads(v + tail, c, line);
    SplitConcat(v, tail, c + 2 + line);
  }

  lemma {:induction false} DoubleConcat(v: string, tail: string) returns (e: nat, line: nat)
    requires AtBreak(tail) && v != "" && v[0] == '"' && ClosingDoubleQuote(v[1..]).Some?
    ensures e <= |v|
    ensures ReadTo(v, Record(v[..e], line == 0), line != 0, e)
    ensures ReadTo(v + tail, Record(v[..e], line == 0), line != 0, e)
  {
    var c := ClosingDoubleQuote(v[1..]).value;
    DoubleFits(v, c);
    line := LineEnd(v[c + 2..]);
    e := c + 2 + line;
    DoubleReads(v, c, line);
    DoubleAgain(v, tail, c, line);
  }

  lemma {:induction false} DoubleFits(v: string, c: nat)
    requires v != "" && ClosingDoubleQuote(v[1..]) == Some(c)
    ensures c + 2 <= |v|
  {
  }

  /** A value whose quote closes within it reads the same with other lines after it. */
  lemma {:induction false} ValueConcat(v: string, tail: string) returns (e: nat)
    requires AtBreak(tail) && QuoteCloses(v)
    ensures e <= |v|
    ensures ReadTo(v, ScanValue(v).record, ScanValue(v).anomaly, e)
    ensures ReadTo(v + tail, ScanValue(v).record, ScanValue(v).anomaly, e)
  {
    if v != "" && v[0] == '"' {
      var line;
      e, line := DoubleConcat(v, tail);
    } else if v != "" && v[0] == '\'' {
      e := SingleConcat(v, tail);
    } else {
      PlainConcat(v, tail);
      e := LineEnd(v);
    }
  }

  lemma {:induction false} LiteralCloses(raw: string)
    requires Encoding.Quoted(raw, '\'')
    ensures ClosingSingleQuote(raw[1..]).Some?
  {
    ClosesLiteral(raw[1..|raw| - 1], "");
    assert raw[1..] == raw[1..|raw| - 1] + "'" + "";
  }

  /** The cut is the value's end or a newline inside it. */
  lemma {:induction false} CutIsBreak(raw: string)
    requires Encodable(raw)
    ensures CutAt(raw) <= |raw|
    ensures CutAt(raw) < |raw| ==> raw[CutAt(raw)] == '\n' && !ExactForm(raw)
    ensures !Unopened(raw) ==> CutAt(raw) + 1 != |raw|
  {
    if ExactForm(raw) {
    } else if Encoding.Quoted(raw, '\'') {
      LiteralCloses(raw);
      ClosingSingleIs(raw[1..]);
    } else {
      LineEndIsFirst(raw);
    }
  }

  lemma {:induction false} ClosingSingleIs(t: string)
    ensures var r := ClosingSingleQuote(t);
            r.Some? ==> t[r.value] == '\'' && (r.value + 1 == |t| || t[r.value + 1] == '\n')
  {
    if t != "" && !(t[0] == '\'' && (|t| == 1 || t[1] == '\n')) {
      ClosingSingleIs(t[1..]);
    }
  }

  lemma {:induction false} ScannedExact(raw: string, tail: string)
    requires AtBreak(tail) && ExactForm(raw)
    ensures ReadTo(raw + tail, Record(raw[..CutAt(raw)], true), false, CutAt(raw))
  {
    ScanExact(raw, tail);
    DropConcat(raw, tail, 1);
    assert raw[..|raw|] == raw;
  }

  lemma {:induction false} ScannedLiteral(raw: string, tail: string)
    requires AtBreak(tail) && Encoding.Quoted(raw, '\'')
    ensures CutAt(raw) <= |raw|
    ensures ReadTo(raw + tail, Record(raw[..CutAt(raw)], false), false, CutAt(raw))
  {
    LiteralCloses(raw);
    var e := SingleConcat(raw, tail);
  }

  /** The record of an encoded value, whatever follows its line. */
  lemma {:induction false} ScannedRecord(raw: string, tail: string)
    requires AtBreak(tail) && Encodable(raw)
    ensures CutAt(raw) <= |raw|
    ensures ScanValue(raw + tail) ==
            Value(Record(raw[..CutAt(raw)], ExactForm(raw)), false, Drop(raw + tail, CutAt(raw) + 1))
  {
    CutIsBreak(raw);
    if ExactForm(raw) {
      ScannedExact(raw, tail);
    } else if Encoding.Quoted(raw, '\'') {
      ScannedLiteral(raw, tail);
    } else {
      ScanPlainRaw(raw, tail);
    }
  }

  /** A record is cut at its true end, whatever follows it, exactly when it is whole:
      exactly escaped, or literal without an inner `'` ending a line, or unquoted on one line. */
  lemma {:induction false} ScannedWhole(raw: string, tail: string)
    requires AtBreak(tail) && Encodable(raw)
    ensures ScanValue(raw + tail).record.raw == raw <==> Whole(raw)
    ensures CutAt(raw) == |raw| <==> Whole(raw)
    ensures Whole(raw) ==> ScanValue(raw + tail) == Value(Record(raw, ExactForm(raw)), false, Drop(tail, 1))
  {
    ScannedRecord(raw, tail);
    assert raw[..|raw|] == raw;
    if ExactForm(raw) {
      ScanExact(raw, tail);
    } else if Encoding.Quoted(raw, '\'') {
      ScanLiteral(raw, tail);
    } else {
      ScanPlainRaw(raw, tail);
      LineEndConcat(raw, tail);
    }
  }

  lemma {:induction false} KeyRunOf(key: string, rest: string)
    requires '=' !in key && '\n' !in key
    ensures KeyRun(key + "=" + rest) == |key|
  {
    var t := key + "=" + rest;
    if key != "" {
      assert key == [key[0]] + key[1..];
      assert t[1..] == key[1..] + "=" + rest;
      KeyRunOf(key[1..], rest);
    }
  }

  lemma {:induction false} ScanKeyed(key: string, v: string)
    requires ValidKey(key)
    ensures ScanOne(key + "=" + v) == Turn(Some(Item(key, ScanValue(v).record)), ScanValue(v).anomaly, ScanValue(v).rest)
  {
    var t := key + "=" + v;
    KeyRunOf(key, v);
    assert t[|key|] == '=' && t[|key| + 1..] == v && t[..|key|] == key;
  }

  // ── the lines a value spills over ──────────────────────────────────────────

  /** So does a whole turn. */
  lemma {:induction false} TurnConcat(t: string, tail: string) returns (e: nat)
    requires AtBreak(tail) && t != "" && ClosesWithin(t)
    ensures e <= |t|
    ensures ScanOne(t).rest == Drop(t, e + 1)
    ensures ScanOne(t + tail) == Turn(ScanOne(t).item, ScanOne(t).leftover, Drop(t + tail, e + 1))
  {
    KeyLengthConcat(t, tail);
    var n := KeyLength(t);
    if n.None? {
      LineEndConcat(t, tail);
      e := LineEnd(t);
      KeylessTurn(t);
      KeylessTurn(t + tail);
    } else {
      var d := KeyedConcat(t, tail, n.value);
      e := n.value + 1 + d;
    }
  }

  lemma {:induction false} KeylessTurn(t: string)
    requires t != "" && KeyLength(t).None?
    ensures ScanOne(t) == Turn(None, true, Drop(t, LineEnd(t) + 1))
  {
  }

  lemma {:induction false} KeyedReads(t: string, n: nat, record: Record, anomaly: bool, d: nat)
    requires KeyLength(t) == Some(n) && n < |t| && ReadTo(t[n + 1..], record, anomaly, d)
    ensures ScanOne(t) == Turn(Some(Item(t[..n], record)), anomaly, Drop(t, n + 1 + d + 1))
  {
    DropDrop(t, n + 1, d + 1);
  }

  lemma {:induction false} KeyedConcat(t: string, tail: string, n: nat) returns (d: nat)
    requires AtBreak(tail) && n < |t|
    requires KeyLength(t) == Some(n) && KeyLength(t + tail) == Some(n) && QuoteCloses(t[n + 1..])
    ensures n + 1 + d <= |t|
    ensures ScanOne(t).rest == Drop(t, n + 1 + d + 1)
    ensures ScanOne(t + tail) == Turn(ScanOne(t).item, ScanOne(t).leftover, Drop(t + tail, n + 1 + d + 1))
  {
    var v := t[n + 1..];
    SplitConcat(t, tail, n + 1);
    SplitConcat(t, tail, n);
    d := ValueConcat(v, tail);
    var record, anomaly := ScanValue(v).record, ScanValue(v).anomaly;
    KeyedReads(t, n, record, anomaly, d);
    KeyedReads(t + tail, n, record, anomaly, d);
  }

  /** The items before the rest of a text, and whether they left anything over. */
  function Before(front: Split, rest: Split): Split {
    Split(front.items + rest.items, front.anomaly || rest.anomaly)
  }

  /** At least one record, or a leftover. */
  predicate Shows(front: Split) {
    front.items == [] ==> front.anomaly
  }

  function Front(turn: Turn): Split {
    Then(turn, Split([], false))
  }

  lemma {:induction false} ThenBefore(turn: Turn, front: Split, rest: Split)
    ensures Then(turn, rest) == Before(Front(turn), rest)
    ensures Then(turn, Before(front, rest)) == Before(Then(turn, front), rest)
  {
    var first := if turn.item.Some? then [turn.item.value] else [];
    assert first + (front.items + rest.items) == (first + front.items) + rest.items;
  }

  lemma {:induction false} BeforeBefore(a: Split, b: Split, rest: Split)
    ensures Before(a, Before(b, rest)) == Before(Before(a, b), rest)
  {
    assert a.items + (b.items + rest.items) == (a.items + b.items) + rest.items;
  }

  lemma {:induction false} TurnShows(t: string)
    requires t != ""
    ensures Shows(Front(ScanOne(t)))
  {
  }

  /** One turn over spilled text: what is left of the text, or of the file after it. */
  lemma {:induction false} SpilledTurn(body: string, tail: string) returns (front: Split, e: nat)
    requires AtBreak(tail) && body != "" && Aligned(body)
    ensures e <= |body| && Shows(front)
    ensures Scan(body + tail) == Before(front, Scan(Drop(body + tail, e + 1)))
    ensures e < |body| ==> Aligned(body[e + 1..]) && Drop(body + tail, e + 1) == body[e + 1..] + tail
    ensures e == |body| ==> Drop(body + tail, e + 1) == Drop(tail, 1)
  {
    e := TurnConcat(body, tail);
    var turn := ScanOne(body + tail);
    ScanTurn(body + tail);
    front := Front(turn);
    ThenBefore(turn, front, Scan(turn.rest));
    TurnShows(body + tail);
    DropWithin(body, tail, e + 1);
    if e < |body| { AlignedRest(body, e); }
  }

  lemma {:induction false} DropWithin(a: string, b: string, n: nat)
    requires n <= |a| + 1
    ensures n <= |a| ==> Drop(a + b, n) == a[n..] + b
    ensures n == |a| + 1 ==> Drop(a + b, n) == Drop(b, 1)
  {
    DropConcat(a, b, 1);
    if n <= |a| { SplitConcat(a, b, n); }
  }

  lemma {:induction false} AlignedRest(t: string, e: nat)
    requires t != "" && e < |t| && Aligned(t) && ScanOne(t).rest == Drop(t, e + 1)
    ensures Aligned(t[e + 1..])
  {
  }

  /** What follows the first line of a value whose rest leaves no quote open: records or
      leftovers of its own, and then the rest of the file as if it stood alone. */
  lemma {:induction false} Spilled(body: string, tail: string) returns (front: Split)
    requires AtBreak(tail) && body + tail != "" && Aligned(body)
    ensures Scan(body + tail) == Before(front, Scan(Drop(tail, 1))) && Shows(front)
    decreases |body|
  {
    if body == "" {
      assert body + tail == tail;
      ScanTurn(tail);
      front := Front(ScanOne(tail));
      ThenBefore(ScanOne(tail), front, Scan(Drop(tail, 1)));
    } else {
      var e;
      front, e := SpilledTurn(body, tail);
      if e < |body| {
        if body[e + 1..] + tail == "" {
          assert Drop(tail, 1) == "";
        } else {
          var more := Spilled(body[e + 1..], tail);
          BeforeBefore(front, more, Scan(Drop(tail, 1)));
          front := Before(front, more);
        }
      }
    }
  }

  predicate NoQuoteAfterEquals(s: string) {
    forall i :: 0 <= i < |s| - 1 && s[i] == '=' ==> s[i + 1] !in "\"'"
  }

  lemma {:induction false} NoQuoteAfterEqualsSuffix(s: string, n: nat)
    requires n <= |s| && NoQuoteAfterEquals(s)
    ensures NoQuoteAfterEquals(s[n..])
  {
    forall i | 0 <= i < |s[n..]| - 1 && s[n..][i] == '=' ensures s[n..][i + 1] !in "\"'" {
      assert s[i + n] == '=';
    }
  }

  /** A text in which no quote follows an `=` opens none. */
  lemma {:induction false} NothingOpens(t: string)
    requires NoQuoteAfterEquals(t)
    ensures Aligned(t)
    decreases |t|
  {
    if t != "" {
      var n := KeyLength(t);
      if n.Some? {
        var v := t[n.value + 1..];
        assert t[n.value] == '=';
        assert v != "" ==> v[0] == t[n.value + 1];
      }
      var e := TurnConcat(t, "");
      if e < |t| {
        NoQuoteAfterEqualsSuffix(t, e + 1);
        NothingOpens(t[e + 1..]);
      }
    }
  }

  // ── where each written record lands ────────────────────────────────────────

  /** What one written record is read as: its own item first, whole or cut at a newline;
      after a cut, a spilled item or a leftover. Only an exact item is closed. */
  ghost predicate ReadAs(one: Written, front: Split) {
    && front.items != [] && front.items[0].key == one.key
    && (front.items[0].record.closed <==> ExactForm(one.raw))
    && (ExactForm(one.raw) ==> front.items[0].record.raw == one.raw)
    && (front.items[0].record.raw == one.raw || |front.items| > 1 || front.anomaly)
    && (Whole(one.raw) ==> front == Split([Item(one.key, Record(one.raw, ExactForm(one.raw)))], false))
  }

  lemma {:induction false} ScanWritten(one: Written, tail: string) returns (front: Split)
    requires ValidKey(one.key) && Delimitable(one.raw) && AtBreak(tail)
    requires tail == "" ==> !CutSilently(one.raw)
    ensures Scan(one.key + "=" + one.raw + tail) == Before(front, Scan(Drop(tail, 1)))
    ensures ReadAs(one, front)
  {
    var raw := one.raw;
    var text := one.key + "=" + (raw + tail);
    assert one.key + "=" + raw + tail == text;
    ScanKeyed(one.key, raw + tail);
    ScanTurn(text);
    var turn := ScanOne(text);
    ScannedWhole(raw, tail);
    if Whole(raw) {
      front := Front(turn);
      ThenBefore(turn, Split([], false), Scan(Drop(tail, 1)));
    } else {
      ScannedRecord(raw, tail);
      CutIsBreak(raw);
      front := ScanCut(one, tail, turn);
    }
  }

  /** The remaining case: a value cut at a newline inside it. */
  lemma {:induction false} ScanCut(one: Written, tail: string, turn: Turn) returns (front: Split)
    requires Delimitable(one.raw) && AtBreak(tail) && CutAt(one.raw) < |one.raw|
    requires tail == "" ==> !CutSilently(one.raw)
    requires turn == Turn(Some(Item(one.key, Record(one.raw[..CutAt(one.raw)], false))), false,
                          Drop(one.raw + tail, CutAt(one.raw) + 1))
    ensures Then(turn, Scan(turn.rest)) == Before(front, Scan(Drop(tail, 1)))
    ensures front.items != [] && front.items[0] == turn.item.value
    ensures |front.items| > 1 || front.anomaly
  {
    SpillIsRest(one.raw, tail);
    front := SpilledAfter(turn, Spill(one.raw), tail);
  }

  lemma {:induction false} SpilledAfter(turn: Turn, body: string, tail: string) returns (front: Split)
    requires Aligned(body) && AtBreak(tail) && turn.item.Some? && turn.rest == body + tail != ""
    ensures Then(turn, Scan(turn.rest)) == Before(front, Scan(Drop(tail, 1)))
    ensures front.items != [] && front.items[0] == turn.item.value
    ensures |front.items| > 1 || front.anomaly
  {
    var more := Spilled(body, tail);
    front := Then(turn, more);
    ThenBefore(turn, more, Scan(Drop(tail, 1)));
  }

  lemma {:induction false} SpillIsRest(raw: string, tail: string)
    requires Encodable(raw) && CutAt(raw) < |raw| && (tail == "" ==> !CutSilently(raw))
    ensures Drop(raw + tail, CutAt(raw) + 1) == Spill(raw) + tail != ""
  {
    CutIsBreak(raw);
    DropWithin(raw, tail, CutAt(raw) + 1);
  }

  function Flatten(fronts: seq<Split>): Split {
    if fronts == [] then Split([], false) else Before(fronts[0], Flatten(fronts[1..]))
  }

  /** The whole file is read front by front, one for each written record. */
  ghost predicate ReadInOrder(w: seq<Written>, fronts: seq<Split>) {
    |fronts| == |w| && forall i :: 0 <= i < |w| ==> ReadAs(w[i], fronts[i])
  }

  lemma {:induction false} ScanPrinted(w: seq<Written>, terminated: bool) returns (fronts: seq<Split>)
    requires Printed(w, terminated)
    ensures ReadInOrder(w, fronts)
    ensures Scan(Print(w, terminated)) == Flatten(fronts)
    decreases |w|
  {
    if w == [] {
      fronts := [];
    } else {
      var tail := Tail(w, terminated);
      assert |w| == 1 ==> w[|w| - 1] == w[0];
      var front := ScanWritten(w[0], tail);
      assert Drop(tail, 1) == Print(w[1..], terminated);
      PrintedRest(w, terminated);
      var more := ScanPrinted(w[1..], terminated);
      fronts := [front] + more;
      ReadInOrderCons(w, front, more);
    }
  }

  lemma {:induction false} PrintedRest(w: seq<Written>, terminated: bool)
    requires w != [] && Printed(w, terminated)
    ensures Printed(w[1..], terminated)
  {
    if |w| > 1 { assert w[1..][|w[1..]| - 1] == w[|w| - 1]; }
  }

  lemma {:induction false} ReadInOrderCons(w: seq<Written>, front: Split, more: seq<Split>)
    requires w != [] && ReadAs(w[0], front) && ReadInOrder(w[1..], more)
    ensures ReadInOrder(w, [front] + more)
    ensures Flatten([front] + more) == Before(front, Flatten(more))
  {
    assert ([front] + more)[1..] == more;
    forall i | 0 <= i < |w| ensures ReadAs(w[i], ([front] + more)[i]) {
      if i > 0 { assert w[i] == w[1..][i - 1]; assert ReadAs(w[1..][i - 1], more[i - 1]); }
    }
  }

  lemma {:induction false} FlattenAt(fronts: seq<Split>, i: nat)
    requires i < |fronts|
    ensures Flatten(fronts) == Before(Flatten(fronts[..i]), Before(fronts[i], Flatten(fronts[i + 1..])))
    decreases i
  {
    if i == 0 {
      assert [] + Flatten(fronts).items == Flatten(fronts).items;
    } else {
      FlattenAt(fronts[1..], i - 1);
      assert fronts[1..][..i - 1] == fronts[..i][1..] && fronts[1..][i..] == fronts[i + 1..];
      BeforeBefore(fronts[0], Flatten(fronts[..i][1..]), Before(fronts[i], Flatten(fronts[i + 1..])));
    }
  }

  // ── counting a key's records ───────────────────────────────────────────────

  lemma {:induction false} RecordsOfConcat(a: seq<Item>, b: seq<Item>, key: string)
    ensures RecordsOf(a + b, key) == RecordsOf(a, key) + RecordsOf(b, key)
    decreases |b|
  {
    if b == [] {
      assert a + b == a;
    } else {
      var front, last := b[..|b| - 1], b[|b| - 1];
      assert a + b == (a + front) + [last] && b == front + [last];
      RecordsOfSnoc(a + front, last, key);
      RecordsOfSnoc(front, last, key);
      RecordsOfConcat(a, front, key);
    }
  }

  lemma {:induction false} RecordsOfHead(items: seq<Item>, key: string)
    requires items != [] && items[0].key == key
    ensures RecordsOf(items, key) == [items[0].record] + RecordsOf(items[1..], key)
  {
    assert items == [items[0]] + items[1..];
    RecordsOfConcat([items[0]], items[1..], key);
  }

  lemma {:induction false} CountedBetween(pre: seq<Item>, mid: seq<Item>, post: seq<Item>, key: string)
    ensures RecordsOf(pre + (mid + post), key) == RecordsOf(pre, key) + (RecordsOf(mid, key) + RecordsOf(post, key))
  {
    RecordsOfConcat(pre, mid + post, key);
    RecordsOfConcat(mid, post, key);
  }

  function Counted(fronts: seq<Split>, key: string): seq<Record> {
    RecordsOf(Flatten(fronts).items, key)
  }

  lemma {:induction false} CountedAt(fronts: seq<Split>, i: nat, key: string)
    requires i < |fronts|
    ensures Counted(fronts, key) ==
            Counted(fronts[..i], key) + (RecordsOf(fronts[i].items, key) + Counted(fronts[i + 1..], key))
  {
    FlattenAt(fronts, i);
    CountedBetween(Flatten(fronts[..i]).items, fronts[i].items, Flatten(fronts[i + 1..]).items, key);
  }

  /** The record of a written key is the first of its own front. */
  lemma {:induction false} HeadCounted(one: Written, front: Split)
    requires ReadAs(one, front)
    ensures RecordsOf(front.items, one.key) == [front.items[0].record] + RecordsOf(front.items[1..], one.key)
  {
    RecordsOfHead(front.items, one.key);
  }

  lemma {:induction false} OccursCounted(items: seq<Item>, m: nat, key: string)
    requires m < |items| && items[m].key == key
    ensures RecordsOf(items, key) != []
  {
    assert items == items[..m] + items[m..];
    RecordsOfConcat(items[..m], items[m..], key);
    RecordsOfHead(items[m..], key);
  }

  /** A key counted in two places is counted twice. */
  lemma {:induction false} TwiceCounted(fronts: seq<Split>, i: nat, j: nat, key: string)
    requires i < j < |fronts|
    requires RecordsOf(fronts[i].items, key) != [] && RecordsOf(fronts[j].items, key) != []
    ensures |Counted(fronts, key)| > 1
  {
    CountedAt(fronts, i, key);
    CountedAt(fronts[i + 1..], j - i - 1, key);
  }

  /** A spilled item whose key was written makes that key occur twice. */
  lemma {:induction false} SpilledRepeats(w: seq<Written>, fronts: seq<Split>, i: nat, m: nat, j: nat)
    requires ReadInOrder(w, fronts) && i < |w| && j < |w|
    requires 1 <= m < |fronts[i].items| && fronts[i].items[m].key == w[j].key
    ensures |Counted(fronts, w[j].key)| > 1
  {
    var key := w[j].key;
    assert ReadAs(w[j], fronts[j]);
    HeadCounted(w[j], fronts[j]);
    if j == i {
      CountedAt(fronts, j, key);
      OccursCounted(fronts[i].items[1..], m - 1, key);
    } else {
      OccursCounted(fronts[i].items, m, key);
      TwiceCounted(fronts, if i < j then i else j, if i < j then j else i, key);
    }
  }

  // ── the trust decision ─────────────────────────────────────────────────────

  /** What is known of the file's keys: the rows written to it, the keys Coolify may
      generate, the rows whose line is there for certain, and whether the generated HOST
      and PORT lines are. */
  datatype Config = Config(rows: set<string>, generated: string -> bool, certain: set<string>,
                           hostWritten: bool, portWritten: bool)

  predicate ExpectedKey(key: string, c: Config) {
    key in c.rows || c.generated(key)
  }

  predicate Digits(s: string) {
    s != "" && forall i :: 0 <= i < |s| ==> '0' <= s[i] <= '9'
  }

  predicate StartsARecord(item: Item, c: Config) {
    if item.key in c.certain then true
    else if item.key == "HOST" && c.hostWritten then item.record.raw == "0.0.0.0"
    else item.key == "PORT" && c.portWritten && Digits(item.record.raw)
  }

  /** A leftover, a repeated key or one nobody expects: some value spilled over lines. */
  ghost predicate Anomalous(read: Split, c: Config) {
    || read.anomaly
    || exists i :: 0 <= i < |read.items| &&
         (|RecordsOf(read.items, read.items[i].key)| > 1 || !ExpectedKey(read.items[i].key, c))
  }

  /** Keys of unclosed records whose end nothing proves. */
  function OpenEnded(items: seq<Item>, c: Config): set<string> {
    set i | 0 <= i < |items| - 1 && !items[i].record.closed && !StartsARecord(items[i + 1], c) :: items[i].key
  }

  ghost function TrustedRaw(read: Split, c: Config, key: string): Option<string> {
    var records := RecordsOf(read.items, key);
    if |records| != 1 then None
    else if Anomalous(read, c) && !records[0].closed then None
    else if key in OpenEnded(read.items, c) then None
    else Some(records[0].raw)
  }

  /** What is taken for certain was indeed written. */
  ghost predicate Sound(c: Config, w: seq<Written>) {
    && (forall key :: key in c.certain ==> WrittenKey(w, key))
    && (c.hostWritten ==> WrittenKey(w, "HOST"))
    && (c.portWritten ==> WrittenKey(w, "PORT"))
  }

  ghost predicate WrittenKey(w: seq<Written>, key: string) {
    exists j :: 0 <= j < |w| && w[j].key == key
  }

  /** The spilled item right after a record's own one, among all those read. */
  lemma {:induction false} SpilledNext(fronts: seq<Split>, i: nat) returns (p: nat)
    requires i < |fronts| && |fronts[i].items| > 1
    ensures p + 1 < |Flatten(fronts).items|
    ensures Flatten(fronts).items[p] == fronts[i].items[0] && Flatten(fronts).items[p + 1] == fronts[i].items[1]
  {
    FlattenAt(fronts, i);
    p := |Flatten(fronts[..i]).items|;
  }

  /** A record after which a spilled item starts is anomalous or open-ended. */
  lemma {:induction false} SpilledUntrusted(w: seq<Written>, fronts: seq<Split>, c: Config, i: nat)
    requires ReadInOrder(w, fronts) && Sound(c, w) && i < |w|
    requires |fronts[i].items| > 1 && !fronts[i].items[0].record.closed
    ensures Anomalous(Flatten(fronts), c) || w[i].key in OpenEnded(Flatten(fronts).items, c)
  {
    var p := SpilledNext(fronts, i);
    var next := fronts[i].items[1];
    if StartsARecord(next, c) {
      assert WrittenKey(w, next.key);
      var j :| 0 <= j < |w| && w[j].key == next.key;
      SpilledRepeats(w, fronts, i, 1, j);
    }
  }

  /** A record cut at a newline is never trusted. */
  lemma {:induction false} CutIsNotTrusted(w: seq<Written>, fronts: seq<Split>, c: Config, i: nat)
    requires ReadInOrder(w, fronts) && Sound(c, w) && i < |w|
    requires fronts[i].items[0].record.raw != w[i].raw
    ensures TrustedRaw(Flatten(fronts), c, w[i].key).None?
  {
    CountedAt(fronts, i, w[i].key);
    HeadCounted(w[i], fronts[i]);
    if |fronts[i].items| > 1 {
      SpilledUntrusted(w, fronts, c, i);
    } else {
      FlattenAt(fronts, i);
    }
  }

  /** A record trusted by the parser holds exactly what was written for its key: a
      truncated or foreign value is never trusted, wherever values hold newlines. */
  lemma {:induction false} TrustedIsWritten(w: seq<Written>, terminated: bool, c: Config, i: nat)
    requires Printed(w, terminated) && Sound(c, w) && i < |w|
    ensures var raw := TrustedRaw(Scan(Print(w, terminated)), c, w[i].key);
            raw == None || raw == Some(w[i].raw)
  {
    var fronts := ScanPrinted(w, terminated);
    CountedAt(fronts, i, w[i].key);
    HeadCounted(w[i], fronts[i]);
    if fronts[i].items[0].record.raw != w[i].raw {
      CutIsNotTrusted(w, fronts, c, i);
    }
  }

  function ItemOf(one: Written): Item {
    Item(one.key, Record(one.raw, ExactForm(one.raw)))
  }

  function ItemsOf(w: seq<Written>): seq<Item> {
    seq(|w|, i requires 0 <= i < |w| => ItemOf(w[i]))
  }

  lemma {:induction false} FlattenSingles(w: seq<Written>, fronts: seq<Split>)
    requires ReadInOrder(w, fronts) && !Flatten(fronts).anomaly
    requires forall i :: 0 <= i < |fronts| ==> |fronts[i].items| == 1
    ensures Flatten(fronts) == Split(ItemsOf(w), false)
  {
    if w != [] {
      assert ReadAs(w[0], fronts[0]);
      forall i | 0 <= i < |w[1..]| ensures ReadAs(w[1..][i], fronts[1..][i]) {
        assert ReadAs(w[i + 1], fronts[i + 1]);
      }
      FlattenSingles(w[1..], fronts[1..]);
      assert ItemsOf(w) == [ItemOf(w[0])] + ItemsOf(w[1..]);
    }
  }

  /** With no leftover, no repeated key and no key that was not written, the file was read
      back as it was printed. */
  lemma {:induction false} CleanIsPrinted(w: seq<Written>, terminated: bool)
    requires Printed(w, terminated)
    requires var read := Scan(Print(w, terminated));
             && !read.anomaly
             && forall p :: 0 <= p < |read.items| ==>
                  WrittenKey(w, read.items[p].key) && |RecordsOf(read.items, read.items[p].key)| == 1
    ensures Scan(Print(w, terminated)) == Split(ItemsOf(w), false)
  {
    var read := Scan(Print(w, terminated));
    var fronts := ScanPrinted(w, terminated);
    forall i | 0 <= i < |w| ensures |fronts[i].items| == 1 {
      assert ReadAs(w[i], fronts[i]);
      if |fronts[i].items| > 1 {
        FlattenAt(fronts, i);
        var p := |Flatten(fronts[..i]).items| + 1;
        assert read.items[p] == fronts[i].items[1];
        var j :| 0 <= j < |w| && w[j].key == read.items[p].key;
        SpilledRepeats(w, fronts, i, 1, j);
      }
    }
    FlattenSingles(w, fronts);
  }

  /** A file of whole records is read back as it was printed, whatever its keys. */
  lemma {:induction false} WholeRoundTrip(w: seq<Written>, terminated: bool)
    requires Printed(w, terminated) && forall i :: 0 <= i < |w| ==> Whole(w[i].raw)
    ensures Scan(Print(w, terminated)) == Split(ItemsOf(w), false)
  {
    var fronts := ScanPrinted(w, terminated);
    forall i | 0 <= i < |w| ensures |fronts[i].items| == 1 && !fronts[i].anomaly {
      assert ReadAs(w[i], fronts[i]);
    }
    FlattenQuiet(fronts);
    FlattenSingles(w, fronts);
  }

  lemma {:induction false} FlattenQuiet(fronts: seq<Split>)
    requires forall i :: 0 <= i < |fronts| ==> !fronts[i].anomaly
    ensures !Flatten(fronts).anomaly
  {
    if fronts != [] {
      FlattenQuiet(fronts[1..]);
    }
  }
}
