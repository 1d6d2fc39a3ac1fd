/** The dotenv splitter: the scan it amounts to, and the loops that carry it out. */
module Dotenv {
  import opened Text
  import opened Wrappers

  /** The text of one value; `closed` if it is in double quotes and they end its line. */
  datatype Record = Record(raw: string, closed: bool)

  datatype Item = Item(key: string, record: Record)

  /** What a text splits into: its records in file order, and whether anything was left over. */
  datatype Split = Split(items: seq<Item>, anomaly: bool)

  /** `records` groups `sequence` by key, as the parser's dictionary does. */
  datatype Parsed = Parsed(records: map<string, seq<Record>>, anomaly: bool, sequence: seq<Item>)

  // ── scanning one record off the front of a text ────────────────────────────

  function AfterLine(t: string): string {
    Drop(t, LineEnd(t) + 1)
  }

  /** The length of the key that `[^=\n]+=` matches at the front, if it matches. */
  function KeyLength(t: string): (r: Option<nat>)
    ensures r.Some? ==> 0 < r.value < |t|
  {
    var n := KeyRun(t);
    if 0 < n < |t| && t[n] == '=' then Some(n) else None
  }

  function KeyRun(t: string): (n: nat)
    ensures n <= |t|
  {
    if t == "" || t[0] == '=' || t[0] == '\n' then 0 else 1 + KeyRun(t[1..])
  }

  /** The first `"` that no backslash escapes. */
  function ClosingDoubleQuote(t: string): (r: Option<nat>)
    ensures r.Some? ==> r.value < |t|
  {
    if t == "" then None
    else if t[0] == '\\' then if |t| < 2 then None else Shift(2, ClosingDoubleQuote(t[2..]))
    else if t[0] == '"' then Some(0)
    else Shift(1, ClosingDoubleQuote(t[1..]))
  }

  /** The first `'` that ends the text or its line. */
  function ClosingSingleQuote(t: string): (r: Option<nat>)
    ensures r.Some? ==> r.value < |t|
  {
    if t == "" then None
    else if t[0] == '\'' && (|t| == 1 || t[1] == '\n') then Some(0)
    else Shift(1, ClosingSingleQuote(t[1..]))
  }

  function Shift(offset: nat, r: Option<nat>): Option<nat> {
    if r.None? then None else Some(offset + r.value)
  }

  /** The value at the front of a text, whether it left anything over, and what follows it. */
  datatype Value = Value(record: Record, anomaly: bool, rest: string)

  /** In double quotes: up to the quote that closes it, and on to the end of that line if
      anything follows it there, which is a leftover. */
  function ScanDouble(v: string): (r: Value)
    requires v != ""
    ensures |r.rest| <= |v|
  {
    var close := ClosingDoubleQuote(v[1..]);
    if close.None? then Value(Record(v, false), true, "")
    else
      var n := close.value + 2;
      var end := n + LineEnd(v[n..]);
      Value(Record(v[..end], end == n), end != n, Drop(v, end + 1))
  }

  /** In single quotes: up to the next one that a line or the text ends with. */
  function ScanSingle(v: string): (r: Value)
    requires v != ""
    ensures |r.rest| <= |v|
  {
    var close := ClosingSingleQuote(v[1..]);
    if close.None? then ScanPlain(v).(anomaly := true)
    else Value(Record(v[..close.value + 2], false), false, Drop(v, close.value + 3))
  }

  /** Unquoted: the rest of the line. */
  function ScanPlain(v: string): (r: Value)
    ensures |r.rest| <= |v|
  {
    Value(Record(v[..LineEnd(v)], false), false, Drop(v, LineEnd(v) + 1))
  }

  function ScanValue(v: string): (r: Value)
    ensures |r.rest| <= |v|
  {
    if v != "" && v[0] == '"' then ScanDouble(v)
    else if v != "" && v[0] == '\'' then ScanSingle(v)
    else ScanPlain(v)
  }

  /** What one turn takes off the front of a text: a record, or a line that starts none. */
  datatype Turn = Turn(item: Option<Item>, leftover: bool, rest: string)

  function ScanOne(t: string): (r: Turn)
    requires t != ""
    ensures |r.rest| < |t|
  {
    var n := KeyLength(t);
    if n.None? then Turn(None, true, AfterLine(t))
    else
      var v := ScanValue(t[n.value + 1..]);
      Turn(Some(Item(t[..n.value], v.record)), v.anomaly, v.rest)
  }

  function Then(turn: Turn, more: Split): Split {
    Split((if turn.item.Some? then [turn.item.value] else []) + more.items, turn.leftover || more.anomaly)
  }

  function Scan(t: string): Split
    decreases |t|
  {
    if t == "" then Split([], false)
    else
      var turn := ScanOne(t);
      Then(turn, Scan(turn.rest))
  }

  /** Every record of one key, in file order. */
  function RecordsOf(items: seq<Item>, key: string): seq<Record> {
    if items == [] then []
    else RecordsOf(items[..|items| - 1], key)
         + if items[|items| - 1].key == key then [items[|items| - 1].record] else []
  }

  lemma {:induction false} KeyRunIsFirst(t: string)
    ensures '=' !in t[..KeyRun(t)] && '\n' !in t[..KeyRun(t)]
  {
    if t != "" && t[0] != '\n' && t[0] != '=' {
      KeyRunIsFirst(t[1..]);
      assert t[..KeyRun(t)] == [t[0]] + t[1..][..KeyRun(t[1..])];
    }
  }

  /** A key lies within its line. */
  lemma {:induction false} KeyWithinLine(t: string)
    ensures KeyRun(t) <= LineEnd(t)
    ensures KeyLength(t).Some? ==> KeyLength(t).value < LineEnd(t)
  {
    if t != "" && t[0] != '\n' && t[0] != '=' {
      KeyWithinLine(t[1..]);
    }
  }

  // ── the parser itself ──────────────────────────────────────────────────────

  method MatchKey(text: string, from: nat) returns (length: Option<nat>)
    requires from <= |text|
    ensures length == KeyLength(text[from..])
  {
    var i := from;
    while i < |text| && text[i] != '=' && text[i] != '\n'
      invariant from <= i <= |text|
      invariant KeyRun(text[from..]) == i - from + KeyRun(text[i..])
    {
      assert text[i..][1..] == text[i + 1..];
      i := i + 1;
    }
    length := if from < i < |text| && text[i] == '=' then Some(i - from) else None;
  }

  /** The scan for a closing quote, one step on from position `i`. */
  lemma {:induction false} ClosingStep(text: string, i: nat)
    requires i < |text|
    ensures Shift(i, ClosingDoubleQuote(text[i..])) ==
            if text[i] == '\\' then
              if i + 2 <= |text| then Shift(i + 2, ClosingDoubleQuote(text[i + 2..])) else None
            else if text[i] == '"' then Some(i)
            else Shift(i + 1, ClosingDoubleQuote(text[i + 1..]))
  {
    assert text[i..][0] == text[i] && text[i..][1..] == text[i + 1..];
    if i + 2 <= |text| {
      assert text[i..][2..] == text[i + 2..];
    }
  }

  method FindDoubleQuote(text: string, from: nat) returns (close: Option<nat>)
    requires from <= |text|
    ensures close == Shift(from, ClosingDoubleQuote(text[from..]))
  {
    var i := from;
    while i < |text|
      invariant from <= i
      invariant Shift(from, ClosingDoubleQuote(text[from..])) ==
                if i <= |text| then Shift(i, ClosingDoubleQuote(text[i..])) else None
    {
      ClosingStep(text, i);
      if text[i] == '\\' {
        i := i + 2;
        continue;
      }
      if text[i] == '"' {
        return Some(i);
      }
      i := i + 1;
    }
    close := None;
  }

  method FindSingleQuote(text: string, from: nat) returns (close: Option<nat>)
    requires from <= |text|
    ensures close == Shift(from, ClosingSingleQuote(text[from..]))
  {
    var i := from;
    while i < |text|
      invariant from <= i <= |text|
      invariant Shift(from, ClosingSingleQuote(text[from..])) == Shift(i, ClosingSingleQuote(text[i..]))
    {
      if text[i] == '\'' && (i + 1 == |text| || text[i + 1] == '\n') {
        return Some(i);
      }
      assert text[i..][1..] == text[i + 1..];
      i := i + 1;
    }
    close := None;
  }

  /** A position past a newline of the text is the rest after that line. */
  lemma {:induction false} AfterLineAt(text: string, pos: nat)
    requires pos <= |text|
    ensures AfterLine(text[pos..]) == Drop(text, pos + LineEnd(text[pos..]) + 1)
  {
    DropDrop(text, pos, LineEnd(text[pos..]) + 1);
  }

  lemma {:induction false} DropDrop(text: string, a: nat, b: nat)
    requires a <= |text|
    ensures Drop(text[a..], b) == Drop(text, a + b)
  {
    if a + b <= |text| {
      assert text[a..][b..] == text[a + b..];
    }
  }

  lemma {:induction false} LineEndSuffix(t: string, n: nat)
    requires n <= |t| && '\n' !in t[..n]
    ensures LineEnd(t) == n + LineEnd(t[n..])
    decreases n
  {
    if n > 0 {
      assert t[..n] == [t[0]] + t[1..][..n - 1];
      LineEndSuffix(t[1..], n - 1);
      assert t[1..][n - 1..] == t[n..];
    }
  }

  method ParseDouble(text: string, vstart: nat) returns (raw: string, closed: bool, leftover: bool, next: nat)
    requires vstart < |text|
    ensures Value(Record(raw, closed), leftover, Drop(text, next)) == ScanDouble(text[vstart..])
    ensures next >= vstart
  {
    assert text[vstart..][1..] == text[vstart + 1..];
    var close := FindDoubleQuote(text, vstart + 1);
    if close.None? {
      DoubleOpen(text, vstart);
      return text[vstart..], false, true, |text|;
    }
    var tailEnd := FindNewline(text, close.value + 1);
    DoubleAt(text, vstart, close.value - vstart - 1);
    if tailEnd == close.value + 1 {
      raw, closed, leftover := text[vstart..close.value + 1], true, false;
    } else {
      raw, closed, leftover := text[vstart..tailEnd], false, true;
    }
    next := tailEnd + 1;
  }

  lemma {:induction false} DoubleOpen(text: string, vstart: nat)
    requires vstart < |text| && ClosingDoubleQuote(text[vstart + 1..]).None?
    ensures ScanDouble(text[vstart..]) == Value(Record(text[vstart..], false), true, Drop(text, |text|))
  {
    assert text[vstart..][1..] == text[vstart + 1..];
    assert Drop(text, |text|) == "";
  }

  /** The quote `c` further on closes the value; it runs on to the end of that line. */
  lemma {:induction false} DoubleAt(text: string, vstart: nat, c: nat)
    requires vstart < |text| && ClosingDoubleQuote(text[vstart + 1..]) == Some(c)
    ensures vstart + c + 2 <= |text|
    ensures var n := vstart + c + 2;
            var end := n + LineEnd(text[n..]);
            end <= |text| && ScanDouble(text[vstart..]) == Value(Record(text[vstart..end], end == n), end != n, Drop(text, end + 1))
  {
    var v := text[vstart..];
    SameSuffix(text, vstart, vstart + 1);
    DoubleEnds(v, c);
    SameSuffix(text, vstart, vstart + c + 2);
    SameSlice(text, vstart, c + 2 + LineEnd(v[c + 2..]));
  }

  lemma {:induction false} SameSuffix(text: string, from: nat, at: nat)
    requires from <= at <= |text|
    ensures text[from..][at - from..] == text[at..]
  {
  }

  lemma {:induction false} SameSlice(text: string, from: nat, n: nat)
    requires from + n <= |text|
    ensures text[from..][..n] == text[from..from + n] && Drop(text[from..], n + 1) == Drop(text, from + n + 1)
  {
    DropDrop(text, from, n + 1);
  }

  lemma {:induction false} DoubleEnds(v: string, c: nat)
    requires v != "" && ClosingDoubleQuote(v[1..]) == Some(c)
    ensures c + 2 <= |v|
    ensures var end := c + 2 + LineEnd(v[c + 2..]);
            end <= |v| && ScanDouble(v) == Value(Record(v[..end], end == c + 2), end != c + 2, Drop(v, end + 1))
  {
  }

  method ParseSingle(text: string, vstart: nat, lineEnd: nat)
    returns (raw: string, closed: bool, leftover: bool, next: nat)
    requires vstart < |text| && lineEnd == vstart + LineEnd(text[vstart..])
    ensures Value(Record(raw, closed), leftover, Drop(text, next)) == ScanSingle(text[vstart..])
    ensures next >= vstart
  {
    ghost var v := text[vstart..];
    assert v[1..] == text[vstart + 1..];
    var close := FindSingleQuote(text, vstart + 1);
    if close.None? {
      assert v[..lineEnd - vstart] == text[vstart..lineEnd];
      DropDrop(text, vstart, lineEnd + 1 - vstart);
      raw, closed, leftover, next := text[vstart..lineEnd], false, true, lineEnd + 1;
    } else {
      assert v[..close.value + 1 - vstart] == text[vstart..close.value + 1];
      DropDrop(text, vstart, close.value + 2 - vstart);
      raw, closed, leftover, next := text[vstart..close.value + 1], false, false, close.value + 2;
    }
  }

  /** The branches on the value's first character. */
  method ParseValue(text: string, vstart: nat, lineEnd: nat)
    returns (raw: string, closed: bool, leftover: bool, next: nat)
    requires vstart <= |text| && lineEnd == vstart + LineEnd(text[vstart..])
    ensures Value(Record(raw, closed), leftover, Drop(text, next)) == ScanValue(text[vstart..])
    ensures next >= vstart
  {
    if vstart < |text| && text[vstart] == '"' {
      raw, closed, leftover, next := ParseDouble(text, vstart);
    } else if vstart < |text| && text[vstart] == '\'' {
      raw, closed, leftover, next := ParseSingle(text, vstart, lineEnd);
    } else {
      assert text[vstart..][..lineEnd - vstart] == text[vstart..lineEnd];
      DropDrop(text, vstart, lineEnd + 1 - vstart);
      raw, closed, leftover, next := text[vstart..lineEnd], false, false, lineEnd + 1;
    }
  }

  /** Past the key, the line still ends where it did. */
  lemma {:induction false} LineEndPastKey(text: string, pos: nat)
    requires pos < |text| && KeyLength(text[pos..]).Some?
    ensures var vstart := pos + KeyLength(text[pos..]).value + 1;
            pos + LineEnd(text[pos..]) == vstart + LineEnd(text[vstart..])
  {
    var here := text[pos..];
    var n := KeyLength(here).value;
    KeyRunIsFirst(here);
    assert here[..n + 1] == here[..n] + ['='];
    LineEndSuffix(here, n + 1);
    assert here[n + 1..] == text[pos + n + 1..];
  }

  /** One turn of the loop, at position `pos`. */
  method ParseRecord(text: string, pos: nat) returns (item: Option<Item>, leftover: bool, next: nat)
    requires pos < |text|
    ensures next > pos
    ensures Turn(item, leftover, Drop(text, next)) == ScanOne(text[pos..])
  {
    ghost var here := text[pos..];
    var lineEnd := FindNewline(text, pos);
    var length := MatchKey(text, pos);
    if length.None? {
      AfterLineAt(text, pos);
      return None, true, lineEnd + 1;
    }
    LineEndPastKey(text, pos);
    var key, vstart := text[pos..pos + length.value], pos + length.value + 1;
    assert here[length.value + 1..] == text[vstart..] && here[..length.value] == key;
    var raw, closed;
    raw, closed, leftover, next := ParseValue(text, vstart, lineEnd);
    item := Some(Item(key, Record(raw, closed)));
  }

  lemma {:induction false} RecordsOfSnoc(items: seq<Item>, item: Item, key: string)
    ensures RecordsOf(items + [item], key) == RecordsOf(items, key) + if item.key == key then [item.record] else []
  {
    assert (items + [item])[..|items|] == items;
  }

  predicate Grouped(records: map<string, seq<Record>>, items: seq<Item>) {
    && (forall key :: key in records ==> records[key] == RecordsOf(items, key) != [])
    && (forall i :: 0 <= i < |items| ==> items[i].key in records)
  }

  lemma {:induction false} GroupedSnoc(records: map<string, seq<Record>>, items: seq<Item>, item: Item)
    requires Grouped(records, items)
    ensures Grouped(records[item.key := (if item.key in records then records[item.key] else []) + [item.record]],
                    items + [item])
  {
    forall key { RecordsOfSnoc(items, item, key); }
    if item.key !in records {
      NoRecords(items, item.key);
    }
  }

  lemma {:induction false} NoRecords(items: seq<Item>, key: string)
    requires forall i :: 0 <= i < |items| ==> items[i].key != key
    ensures RecordsOf(items, key) == []
  {
    if items != [] {
      NoRecords(items[..|items| - 1], key);
    }
  }

  /** `sequence` and `anomaly` are what the text before position `pos` gave. */
  ghost predicate ReadUpTo(text: string, pos: nat, sequence: seq<Item>, anomaly: bool) {
    var rest := Scan(Drop(text, pos));
    Scan(text) == Split(sequence + rest.items, anomaly || rest.anomaly)
  }

  lemma {:induction false} ScanTurn(t: string)
    requires t != ""
    ensures Scan(t) == Then(ScanOne(t), Scan(ScanOne(t).rest))
  {
  }

  lemma {:induction false} ReadOne(sequence: seq<Item>, anomaly: bool, turn: Turn, rest: Split)
    ensures sequence + Then(turn, rest).items ==
            (if turn.item.Some? then sequence + [turn.item.value] else sequence) + rest.items
  {
  }

  method ParseDotenv(text: string) returns (parsed: Parsed)
    ensures Split(parsed.sequence, parsed.anomaly) == Scan(text)
    ensures Grouped(parsed.records, parsed.sequence)
  {
    var records: map<string, seq<Record>>, sequence: seq<Item>, anomaly := map[], [], false;
    var pos, end := 0, |text|;
    assert Drop(text, 0) == text && [] + Scan(text).items == Scan(text).items;
    while pos < end
      invariant ReadUpTo(text, pos, sequence, anomaly)
      invariant Grouped(records, sequence)
      decreases end - pos
    {
      var item, leftover, next := ParseRecord(text, pos);
      ScanTurn(text[pos..]);
      ReadOne(sequence, anomaly, Turn(item, leftover, Drop(text, next)), Scan(Drop(text, next)));
      if item.Some? {
        var Item(key, record) := item.value;
        GroupedSnoc(records, sequence, item.value);
        records := records[key := (if key in records then records[key] else []) + [record]];
        sequence := sequence + [item.value];
      }
      anomaly := anomaly || leftover;
      pos := next;
    }
    assert sequence + [] == sequence;
    parsed := Parsed(records, anomaly, sequence);
  }
}
