/** The file a journal lives in: one record a line, and whatever a power cut left of the last. */
module JournalFile {
  import opened Journal
  import opened Text
  import opened Utf8
  import opened Wrappers

  datatype Record = Record(seqNo: nat, entry: Entry)

  /** How a record becomes a line, and what a line says, if anything. */
  datatype Codec = Codec(render: Record -> string, parse: string -> Option<Record>)

  /** What a crash can leave of a line. */
  ghost predicate Piece(codec: Codec, s: string) {
    exists r, n :: PieceOf(codec, s, r, n)
  }

  ghost predicate PieceOf(codec: Codec, s: string, r: Record, n: nat) {
    0 < n <= |codec.render(r)| && s == codec.render(r)[..n]
  }

  function Joined(pieces: seq<string>): string {
    if pieces == [] then "" else Joined(pieces[..|pieces| - 1]) + pieces[|pieces| - 1]
  }

  /** The lines of a journal are JSON objects that open with the same key. A record reads
      back; a part of one does not; and two or more parts on one line never form one. */
  ghost predicate Lawful(codec: Codec) {
    && (forall r :: codec.render(r) != "" && '\n' !in codec.render(r) && codec.parse(codec.render(r)) == Some(r))
    && (forall r, n :: 0 < n < |codec.render(r)| ==> codec.parse(codec.render(r)[..n]) == None)
    && (forall pieces {:trigger Remains(codec, pieces)} :: Remains(codec, pieces) && |pieces| != 1 ==>
          codec.parse(Joined(pieces)) == None)
  }

  /** What crash after crash leaves on one line. */
  ghost predicate Remains(codec: Codec, pieces: seq<string>) {
    forall i :: 0 <= i < |pieces| ==> Piece(codec, pieces[i])
  }

  // ── there is such a codec ──────────────────────────────────────────────────

  function Strokes(n: nat): string {
    seq(n, _ => 'i')
  }

  predicate IsStrokes(s: string) {
    |s| >= 2 && s[0] == '{' && s[|s| - 1] == '}' && forall i :: 0 < i < |s| - 1 ==> s[i] == 'i'
  }

  /** As many strokes between braces as the record's number. */
  function Unary(number: Record -> nat, record: nat -> Option<Record>): Codec {
    Codec(r => "{" + Strokes(number(r)) + "}", s => if IsStrokes(s) then record(|s| - 2) else None)
  }

  /** Whatever numbers the records, no two alike, gives a lawful codec. */
  lemma {:induction false} UnaryIsLawful(number: Record -> nat, record: nat -> Option<Record>)
    requires forall r :: record(number(r)) == Some(r)
    ensures Lawful(Unary(number, record))
  {
    var codec := Unary(number, record);
    forall r ensures codec.render(r) != "" && '\n' !in codec.render(r) && codec.parse(codec.render(r)) == Some(r) {
      assert IsStrokes("{" + Strokes(number(r)) + "}");
    }
    forall r, n | 0 < n < |codec.render(r)| ensures codec.parse(codec.render(r)[..n]) == None {
      assert codec.render(r) == "{" + Strokes(number(r)) + "}";
      assert codec.render(r)[..n][n - 1] != '}';
    }
    forall pieces {:trigger Remains(codec, pieces)} | Remains(codec, pieces) && |pieces| != 1 ensures codec.parse(Joined(pieces)) == None {
      if pieces != [] {
        JoinedIsNoLine(number, record, pieces);
      }
    }
  }

  lemma {:induction false} JoinedIsNoLine(number: Record -> nat, record: nat -> Option<Record>, pieces: seq<string>)
    requires Remains(Unary(number, record), pieces) && |pieces| >= 2
    ensures !IsStrokes(Joined(pieces))
  {
    var front, last := pieces[..|pieces| - 1], pieces[|pieces| - 1];
    OpensABrace(number, record, last);
    assert pieces[|pieces| - 2] == front[|front| - 1];
    OpensABrace(number, record, front[|front| - 1]);
    assert Joined(front) != "";
    assert Joined(pieces)[|Joined(front)|] == '{';
  }

  lemma {:induction false} OpensABrace(number: Record -> nat, record: nat -> Option<Record>, s: string)
    requires Piece(Unary(number, record), s)
    ensures s != "" && s[0] == '{'
  {
    var codec := Unary(number, record);
    var r: Record, n: nat :| PieceOf(codec, s, r, n);
    assert s == ("{" + Strokes(number(r)) + "}")[..n];
  }

  // ── reading ────────────────────────────────────────────────────────────────

  function Line(codec: Codec, line: string): seq<Record> {
    if codec.parse(line).Some? then [codec.parse(line).value] else []
  }

  function ReadText(codec: Codec, t: string): seq<Record>
    decreases |t|
  {
    if t == "" then []
    else
      var n := LineEnd(t);
      Line(codec, t[..n]) + ReadText(codec, Drop(t, n + 1))
  }

  /** The part of a file after its last newline. */
  function TailOf(t: string): string {
    if t == "" || t[|t| - 1] == '\n' then "" else TailOf(t[..|t| - 1]) + [t[|t| - 1]]
  }

  function Settled(t: string): (s: string)
  {
    if t == "" || t[|t| - 1] == '\n' then t else Settled(t[..|t| - 1])
  }

  predicate EndsLine(t: string) {
    t == "" || t[|t| - 1] == '\n'
  }

  lemma {:induction false} SettledAndTail(t: string)
    ensures t == Settled(t) + TailOf(t) && EndsLine(Settled(t)) && '\n' !in TailOf(t)
  {
    if t != "" && t[|t| - 1] != '\n' {
      SettledAndTail(t[..|t| - 1]);
      assert t == t[..|t| - 1] + [t[|t| - 1]];
    }
  }

  lemma {:induction false} SplitAt(body: string, tail: string)
    requires EndsLine(body) && '\n' !in tail
    ensures Settled(body + tail) == body && TailOf(body + tail) == tail
    decreases |tail|
  {
    if tail == "" {
      assert body + tail == body;
    } else {
      var front, last := tail[..|tail| - 1], tail[|tail| - 1];
      SplitAt(body, front);
      assert tail == front + [last];
      SplitOne(body + front, last);
      assert body + tail == (body + front) + [last];
    }
  }

  lemma {:induction false} SplitOne(t: string, c: char)
    requires c != '\n'
    ensures Settled(t + [c]) == Settled(t) && TailOf(t + [c]) == TailOf(t) + [c]
  {
    assert (t + [c])[..|t|] == t;
  }

  lemma {:induction false} ReadConcat(codec: Codec, a: string, b: string)
    requires EndsLine(a)
    ensures ReadText(codec, a + b) == ReadText(codec, a) + ReadText(codec, b)
    decreases |a|
  {
    if a == "" {
      assert a + b == b;
    } else {
      var n := LineEnd(a);
      FirstLineRead(codec, a, b);
      ReadConcat(codec, a[n + 1..], b);
      Associated(Line(codec, a[..n]), ReadText(codec, a[n + 1..]), ReadText(codec, b));
    }
  }

  lemma {:induction false} FirstLineRead(codec: Codec, a: string, b: string)
    requires EndsLine(a) && a != ""
    ensures var n := LineEnd(a);
            && n < |a| && EndsLine(a[n + 1..])
            && ReadText(codec, a) == Line(codec, a[..n]) + ReadText(codec, a[n + 1..])
            && ReadText(codec, a + b) == Line(codec, a[..n]) + ReadText(codec, a[n + 1..] + b)
  {
    LineEndIsFirst(a);
    assert a[..|a|] == a && LineEnd(a) < |a|;
    FirstLineOfConcat(a, b);
    ReadStep(codec, a);
    ReadStep(codec, a + b);
  }

  lemma {:induction false} FirstLineOfConcat(a: string, b: string)
    requires EndsLine(a) && LineEnd(a) < |a|
    ensures var n := LineEnd(a);
            && LineEnd(a + b) == n && (a + b)[..n] == a[..n]
            && Drop(a + b, n + 1) == a[n + 1..] + b && Drop(a, n + 1) == a[n + 1..] && EndsLine(a[n + 1..])
  {
    LineEndOfConcat(a, b);
    var rest := a[LineEnd(a) + 1..];
    assert rest == "" || rest[|rest| - 1] == a[|a| - 1];
  }

  lemma {:induction false} ReadStep(codec: Codec, t: string)
    requires t != ""
    ensures ReadText(codec, t) == Line(codec, t[..LineEnd(t)]) + ReadText(codec, Drop(t, LineEnd(t) + 1))
  {
  }

  lemma {:induction false} LineEndOfConcat(a: string, b: string)
    requires LineEnd(a) < |a|
    ensures LineEnd(a + b) == LineEnd(a)
  {
    if a[0] != '\n' {
      assert (a + b)[1..] == a[1..] + b;
      LineEndOfConcat(a[1..], b);
    }
  }

  lemma {:induction false} ReadLine(codec: Codec, line: string)
    requires '\n' !in line
    ensures ReadText(codec, line + "\n") == Line(codec, line)
    ensures line != "" ==> ReadText(codec, line) == Line(codec, line)
  {
    LineEndAlone(line);
    var t := line + "\n";
    assert t[..|line|] == line && Drop(t, |line| + 1) == "" && line[..|line|] == line;
    assert Line(codec, line) + [] == Line(codec, line);
    assert ReadText(codec, "") == [];
  }

  lemma {:induction false} LineEndAlone(line: string)
    requires '\n' !in line
    ensures LineEnd(line) == |line| && LineEnd(line + "\n") == |line|
  {
    if line != "" {
      assert line == [line[0]] + line[1..];
      assert (line + "\n")[1..] == line[1..] + "\n";
      LineEndAlone(line[1..]);
    }
  }

  /** One turn of the read: the line at `pos`, then whatever comes after it. */
  lemma {:induction false} ReadNext(codec: Codec, text: string, pos: nat, eol: nat, records: seq<Record>)
    requires pos < |text| && eol == pos + LineEnd(text[pos..])
    ensures records + ReadText(codec, Drop(text, pos)) ==
            (records + Line(codec, text[pos..eol])) + ReadText(codec, Drop(text, eol + 1))
  {
    var rest := text[pos..];
    assert rest[..LineEnd(rest)] == text[pos..eol];
    assert Drop(rest, LineEnd(rest) + 1) == Drop(text, eol + 1);
    ReadStep(codec, rest);
    Associated(records, Line(codec, text[pos..eol]), ReadText(codec, Drop(text, eol + 1)));
  }

  method ReadRecords(codec: Codec, text: string) returns (records: seq<Record>)
    ensures records == ReadText(codec, text)
  {
    records := [];
    var pos := 0;
    ghost var all := ReadText(codec, text);
    assert Drop(text, 0) == text && records + all == all;
    while pos < |text|
      invariant all == records + ReadText(codec, Drop(text, pos))
      decreases |text| - pos
    {
      var eol := FindNewline(text, pos);
      ReadNext(codec, text, pos, eol, records);
      records := records + Line(codec, text[pos..eol]);
      pos := eol + 1;
    }
    assert Drop(text, pos) == "" && records + [] == records;
  }

  // ── the file on disk ───────────────────────────────────────────────────────

  /** Whatever is after the last newline was left there by crashes. */
  ghost predicate Shaped(codec: Codec, text: string, pieces: seq<string>) {
    && Lawful(codec)
    && TailOf(text) == Joined(pieces)
    && Remains(codec, pieces)
  }

  ghost predicate OnDisk(codec: Codec, text: string, pieces: seq<string>) {
    Shaped(codec, text, pieces) && Increasing(ReadText(codec, text))
  }

  predicate Increasing(rs: seq<Record>) {
    forall i, j :: 0 <= i < j < |rs| ==> rs[i].seqNo < rs[j].seqNo
  }

  lemma {:induction false} JoinedPieces(codec: Codec, pieces: seq<string>)
    requires Lawful(codec) && Remains(codec, pieces)
    ensures '\n' !in Joined(pieces)
    ensures Joined(pieces) == "" <==> pieces == []
  {
    if pieces != [] {
      JoinedPieces(codec, pieces[..|pieces| - 1]);
    }
  }

  lemma {:induction false} AddPiece(codec: Codec, pieces: seq<string>, r: Record, n: nat)
    requires Remains(codec, pieces)
    requires 0 < n <= |codec.render(r)|
    ensures var more := pieces + [codec.render(r)[..n]];
            && Remains(codec, more)
            && Joined(more) == Joined(pieces) + codec.render(r)[..n]
  {
    var more := pieces + [codec.render(r)[..n]];
    assert more[..|more| - 1] == pieces;
    assert PieceOf(codec, codec.render(r)[..n], r, n);
  }

  /** What the last line says: nothing, unless it is one whole record. */
  lemma {:induction false} PiecesSay(codec: Codec, pieces: seq<string>)
    requires Lawful(codec) && Remains(codec, pieces)
    ensures |pieces| != 1 ==> Line(codec, Joined(pieces)) == []
    ensures forall r :: pieces == [codec.render(r)] ==> Line(codec, Joined(pieces)) == [r]
    ensures |Line(codec, Joined(pieces))| <= 1
  {
    if |pieces| == 1 {
      assert pieces[..0] == [] && Joined(pieces) == "" + pieces[0] == pieces[0];
    }
  }

  /** Reading on after the last newline. */
  lemma {:induction false} ReadAfter(codec: Codec, body: string, line: string)
    requires EndsLine(body) && '\n' !in line
    ensures ReadText(codec, body + (line + "\n")) == ReadText(codec, body) + Line(codec, line)
    ensures line != "" ==> ReadText(codec, body + line) == ReadText(codec, body) + Line(codec, line)
  {
    ReadLine(codec, line);
    ReadConcat(codec, body, line + "\n");
    ReadConcat(codec, body, line);
  }

  lemma {:induction false} MorePieces(codec: Codec, text: string, pieces: seq<string>, r: Record, n: nat) returns (more: seq<string>)
    requires Shaped(codec, text, pieces) && 0 < n <= |codec.render(r)|
    ensures more == pieces + [codec.render(r)[..n]] && Remains(codec, more)
    ensures EndsLine(Settled(text)) && '\n' !in Joined(more) && Joined(more) != ""
    ensures text + codec.render(r)[..n] == Settled(text) + Joined(more)
  {
    more := pieces + [codec.render(r)[..n]];
    SettledAndTail(text);
    AddPiece(codec, pieces, r, n);
    JoinedPieces(codec, more);
  }

  /** One more line after whatever is there: every record up to the last newline is still
      read, and the new one is, unless it joined the remains of a torn line. */
  lemma {:induction false} AppendedText(codec: Codec, text: string, pieces: seq<string>, r: Record)
    requires Shaped(codec, text, pieces)
    ensures ReadText(codec, text + codec.render(r) + "\n") ==
            ReadText(codec, Settled(text)) + if pieces == [] then [r] else []
  {
    var line := codec.render(r);
    assert line[..|line|] == line;
    var more := MorePieces(codec, text, pieces, r, |line|);
    AppendedSays(codec, pieces, r);
    ReadAfter(codec, Settled(text), Joined(more));
    Reassociated(text, line, Settled(text), Joined(more));
  }

  lemma {:induction false} Reassociated(text: string, line: string, body: string, joined: string)
    requires text + line == body + joined
    ensures text + line + "\n" == body + (joined + "\n")
  {
  }

  lemma {:induction false} AppendedSays(codec: Codec, pieces: seq<string>, r: Record)
    requires Lawful(codec) && Remains(codec, pieces)
    ensures Line(codec, Joined(pieces + [codec.render(r)])) == if pieces == [] then [r] else []
  {
    var line := codec.render(r);
    assert line[..|line|] == line;
    TornSays(codec, pieces, r, |line|);
  }

  /** A crash part-way through a line: nothing up to the last newline changes. */
  lemma {:induction false} TornText(codec: Codec, text: string, pieces: seq<string>, r: Record, n: nat)
    requires Shaped(codec, text, pieces) && 0 < n <= |codec.render(r)|
    ensures Settled(text + codec.render(r)[..n]) == Settled(text)
    ensures TailOf(text + codec.render(r)[..n]) == Joined(pieces + [codec.render(r)[..n]])
    ensures ReadText(codec, text + codec.render(r)[..n]) ==
            ReadText(codec, Settled(text)) + if pieces == [] && n == |codec.render(r)| then [r] else []
  {
    var more := MorePieces(codec, text, pieces, r, n);
    SplitAt(Settled(text), Joined(more));
    ReadAfter(codec, Settled(text), Joined(more));
    TornSays(codec, pieces, r, n);
  }

  lemma {:induction false} TornSays(codec: Codec, pieces: seq<string>, r: Record, n: nat)
    requires Lawful(codec) && Remains(codec, pieces) && 0 < n <= |codec.render(r)|
    ensures Line(codec, Joined(pieces + [codec.render(r)[..n]])) ==
            if pieces == [] && n == |codec.render(r)| then [r] else []
  {
    var piece := codec.render(r)[..n];
    AddPiece(codec, pieces, r, n);
    PiecesSay(codec, pieces + [piece]);
    if pieces == [] {
      assert Joined([]) + piece == piece;
      assert n < |codec.render(r)| ==> codec.parse(codec.render(r)[..n]) == None;
      assert n == |codec.render(r)| ==> piece == codec.render(r);
    }
  }

  /** Everything a file says: what is settled, and its last line if that is one whole record. */
  lemma {:induction false} ReadIsSettledFirst(codec: Codec, text: string, pieces: seq<string>)
    requires Shaped(codec, text, pieces)
    ensures ReadText(codec, Settled(text)) <= ReadText(codec, text)
    ensures |ReadText(codec, text)| <= |ReadText(codec, Settled(text))| + 1
    ensures pieces == [] ==> Settled(text) == text
  {
    SettledAndTail(text);
    JoinedPieces(codec, pieces);
    PiecesSay(codec, pieces);
    ReadConcat(codec, Settled(text), TailOf(text));
    if pieces != [] {
      ReadLine(codec, Joined(pieces));
    } else {
      assert Settled(text) + "" == Settled(text);
    }
  }

  lemma {:induction false} StillIncreasing(rs: seq<Record>, last: nat, r: Record)
    requires Increasing(rs) && (forall k :: 0 <= k < |rs| ==> rs[k].seqNo <= last) && r.seqNo == last + 1
    ensures Increasing(rs + [r])
  {
  }

  /** Every readable record is numbered, and no number is above the last. */
  ghost predicate Numbered(codec: Codec, text: string, last: nat) {
    forall r :: r in ReadText(codec, text) ==> r.seqNo <= last
  }

  lemma {:induction false} AppendKeeps(codec: Codec, text: string, pieces: seq<string>, last: nat, r: Record)
    requires OnDisk(codec, text, pieces) && Numbered(codec, text, last) && r.seqNo == last + 1
    ensures var more := text + codec.render(r) + "\n";
            && OnDisk(codec, more, []) && Numbered(codec, more, last + 1) && Settled(more) == more
            && ReadText(codec, more) == ReadText(codec, Settled(text)) + if pieces == [] then [r] else []
  {
    var more := text + codec.render(r) + "\n";
    AppendedText(codec, text, pieces, r);
    ReadIsSettledFirst(codec, text, pieces);
    StillIncreasing(ReadText(codec, Settled(text)), last, r);
    assert more[|more| - 1] == '\n';
    assert TailOf(more) == Joined([]) == "";
  }

  lemma {:induction false} TearKeeps(codec: Codec, text: string, pieces: seq<string>, last: nat, r: Record, n: nat)
    requires OnDisk(codec, text, pieces) && Numbered(codec, text, last) && r.seqNo == last + 1
    requires 0 < n <= |codec.render(r)|
    ensures var more := text + codec.render(r)[..n];
            && OnDisk(codec, more, pieces + [codec.render(r)[..n]]) && Numbered(codec, more, last + 1)
            && Settled(more) == Settled(text)
  {
    TornText(codec, text, pieces, r, n);
    AddPiece(codec, pieces, r, n);
    ReadIsSettledFirst(codec, text, pieces);
    var settled, more := ReadText(codec, Settled(text)), ReadText(codec, text + codec.render(r)[..n]);
    StillIncreasing(settled, last, r);
    MoreIncreasing(settled, more, last, r);
  }

  lemma {:induction false} MoreIncreasing(settled: seq<Record>, more: seq<Record>, last: nat, r: Record)
    requires more == settled || more == settled + [r]
    requires Increasing(settled + [r]) && r.seqNo == last + 1 && forall q :: q in settled ==> q.seqNo <= last
    ensures Increasing(more) && forall q :: q in more ==> q.seqNo <= last + 1
  {
    if more == settled {
      assert forall i :: 0 <= i < |settled| ==> (settled + [r])[i] == settled[i];
    }
  }

  // ── the bytes of the file ──────────────────────────────────────────────────

  /** Reading decodes strictly first: bytes that are no text yield an error and no record. */
  function ReadBytes(codec: Codec, bytes: seq<Byte>): Option<seq<Record>> {
    var text := Decode(bytes);
    if text.None? then None else Some(ReadText(codec, text.value))
  }

  /** A text in the file, if its bytes are one, is as crashes leave it and numbered up to `last`. */
  ghost predicate Holds(codec: Codec, bytes: seq<Byte>, pieces: seq<string>, last: nat) {
    Lawful(codec) &&
    (Decode(bytes).Some? ==> OnDisk(codec, Decode(bytes).value, pieces) && Numbered(codec, Decode(bytes).value, last))
  }

  /** What the front of a line adds to a file: text on a boundary, an undecodable end otherwise. */
  lemma {:induction false} Written(bytes: seq<Byte>, line: string, n: nat)
    requires n <= |Encode(line)|
    ensures Decode(bytes).None? ==> Decode(bytes + Encode(line)[..n]).None?
    ensures Decode(bytes).Some? ==> (Decode(bytes + Encode(line)[..n]).Some? <==> OnBoundary(line, n))
    ensures forall k: nat :: Decode(bytes).Some? && BoundaryAt(line, n, k) ==>
              Decode(bytes + Encode(line)[..n]) == Some(Decode(bytes).value + line[..k])
  {
    if Decode(bytes).None? {
      EncodeStarts(line, n);
      StaysUndecodable(bytes, Encode(line)[..n]);
    } else {
      DecodeEncodes(bytes);
      ConcatDecodes(Decode(bytes).value, Encode(line)[..n]);
      CutDecodes(line, n);
    }
  }

  lemma {:induction false} WrittenWhole(bytes: seq<Byte>, line: string)
    ensures Decode(bytes + Encode(line)) ==
            if Decode(bytes).None? then None else Some(Decode(bytes).value + line)
  {
    var n := |Encode(line)|;
    assert Encode(line)[..n] == Encode(line) && line[..|line|] == line;
    assert BoundaryAt(line, n, |line|);
    Written(bytes, line, n);
  }

  /** One migration's journal, as a process holds it open. */
  class File {
    const codec: Codec
    var bytes: seq<Byte>
    var seqNo: nat
    ghost var pieces: seq<string>

    ghost predicate Valid()
      reads this
    {
      Holds(codec, bytes, pieces, seqNo)
    }

    /** Whether the file can be read at all. */
    predicate Readable()
      reads this
    {
      Decode(bytes).Some?
    }

    /** The records that end in a newline. */
    ghost function SettledRecords(): seq<Record>
      requires Readable()
      reads this
    {
      ReadText(codec, Settled(Decode(bytes).value))
    }

    constructor (codec: Codec, bytes: seq<Byte>, seqNo: nat, ghost pieces: seq<string>)
      requires Holds(codec, bytes, pieces, seqNo)
      ensures Valid() && this.codec == codec && this.bytes == bytes && this.seqNo == seqNo && this.pieces == pieces
    {
      this.codec, this.bytes, this.seqNo, this.pieces := codec, bytes, seqNo, pieces;
    }

    /** Opening reads the file, and takes up the numbering after its last record. A file whose
        bytes are no text cannot be opened. */
    static method Open(codec: Codec, bytes: seq<Byte>, ghost pieces: seq<string>) returns (file: Option<File>)
      requires Decode(bytes).Some? ==> OnDisk(codec, Decode(bytes).value, pieces)
      ensures file.Some? <==> Decode(bytes).Some?
      ensures file.Some? ==> fresh(file.value) && file.value.Valid() && file.value.codec == codec
      ensures file.Some? ==> file.value.bytes == bytes && file.value.pieces == pieces
      ensures file.Some? ==> var last := file.value.seqNo;
                last == 0 || exists r :: r in ReadBytes(codec, bytes).value && r.seqNo == last
    {
      var text := Decode(bytes);
      if text.None? {
        return None;
      }
      var records := ReadRecords(codec, text.value);
      var last := LastNumber(records);
      var journal := new File(codec, bytes, last, pieces);
      return Some(journal);
    }

    method Read() returns (records: Option<seq<Record>>)
      ensures records == ReadBytes(codec, bytes)
      ensures records.Some? <==> Readable()
    {
      var text := Decode(bytes);
      if text.None? {
        return None;
      }
      var read := ReadRecords(codec, text.value);
      records := Some(read);
    }

    /** Appending never disturbs a settled record. At most the unsettled tail is lost, and
        the record that joined it. A file that cannot be read stays so. */
    method Append(entry: Entry) returns (record: Record)
      requires Valid()
      modifies this`bytes, this`seqNo, this`pieces
      ensures Valid() && pieces == []
      ensures record == Record(old(seqNo) + 1, entry) && seqNo == old(seqNo) + 1
      ensures bytes == old(bytes) + Encode(codec.render(record) + "\n")
      ensures Readable() <==> old(Readable())
      ensures Readable() ==> Settled(Decode(bytes).value) == Decode(bytes).value
      ensures Readable() ==>
                ReadBytes(codec, bytes) == Some(old(SettledRecords()) + if old(pieces) == [] then [record] else [])
      ensures Readable() ==>
                var rs := ReadBytes(codec, bytes).value;
                forall i, j :: 0 <= i < j < |rs| ==> rs[i].seqNo < rs[j].seqNo
    {
      record := Record(seqNo + 1, entry);
      AppendHolds(codec, bytes, pieces, seqNo, record);
      bytes := bytes + Encode(codec.render(record) + "\n");
      seqNo, pieces := seqNo + 1, [];
    }

    /** The process dies while it writes: some first bytes of the line reach the disk. If they
        end inside a character, nothing reads the file any more; if not, no settled record
        has changed. */
    method Tear(entry: Entry, n: nat)
      requires Valid() && n <= |Encode(codec.render(Record(seqNo + 1, entry)))|
      modifies this`bytes, this`seqNo, this`pieces
      ensures Valid() && seqNo == old(seqNo) + 1
      ensures var line := codec.render(Record(old(seqNo) + 1, entry));
              && bytes == old(bytes) + Encode(line)[..n]
              && (Readable() <==> old(Readable()) && OnBoundary(line, n))
      ensures Readable() ==> SettledRecords() == old(SettledRecords())
      ensures Readable() && n > 0 ==> pieces != []
      ensures Readable() ==>
                var rs := ReadBytes(codec, bytes).value;
                forall i, j :: 0 <= i < j < |rs| ==> rs[i].seqNo < rs[j].seqNo
    {
      var record := Record(seqNo + 1, entry);
      var line := codec.render(record);
      Written(bytes, line, n);
      ghost var torn := pieces;
      if Decode(bytes).Some? && OnBoundary(line, n) {
        torn := TearHolds(codec, bytes, pieces, seqNo, record, n);
      }
      bytes := bytes + Encode(line)[..n];
      seqNo, pieces := seqNo + 1, torn;
    }
  }

  method LastNumber(records: seq<Record>) returns (last: nat)
    ensures forall r :: r in records ==> r.seqNo <= last
    ensures last == 0 || exists r :: r in records && r.seqNo == last
  {
    last := 0;
    for i := 0 to |records|
      invariant forall k :: 0 <= k < i ==> records[k].seqNo <= last
      invariant last == 0 || exists k :: 0 <= k < i && records[k].seqNo == last
    {
      if records[i].seqNo > last {
        last := records[i].seqNo;
      }
    }
  }

  lemma {:induction false} AppendHolds(codec: Codec, bytes: seq<Byte>, pieces: seq<string>, last: nat, r: Record)
    requires Holds(codec, bytes, pieces, last) && r.seqNo == last + 1
    ensures var more := bytes + Encode(codec.render(r) + "\n");
            && Holds(codec, more, [], last + 1)
            && (Decode(more).Some? <==> Decode(bytes).Some?)
            && (Decode(more).Some? ==>
                  var text := Decode(more).value;
                  && Settled(text) == text
                  && ReadText(codec, text) ==
                     ReadText(codec, Settled(Decode(bytes).value)) + if pieces == [] then [r] else [])
  {
    WrittenWhole(bytes, codec.render(r) + "\n");
    if Decode(bytes).Some? {
      LineKeeps(codec, Decode(bytes).value, pieces, last, r);
    }
  }

  lemma {:induction false} LineKeeps(codec: Codec, text: string, pieces: seq<string>, last: nat, r: Record)
    requires OnDisk(codec, text, pieces) && Numbered(codec, text, last) && r.seqNo == last + 1
    ensures var more := text + (codec.render(r) + "\n");
            && OnDisk(codec, more, []) && Numbered(codec, more, last + 1) && Settled(more) == more
            && ReadText(codec, more) == ReadText(codec, Settled(text)) + if pieces == [] then [r] else []
  {
    AppendKeeps(codec, text, pieces, last, r);
    Reassociated(text, codec.render(r), text, codec.render(r));
  }

  lemma {:induction false} TearHolds(codec: Codec, bytes: seq<Byte>, pieces: seq<string>, last: nat, r: Record, n: nat)
    returns (torn: seq<string>)
    requires Holds(codec, bytes, pieces, last) && r.seqNo == last + 1 && Decode(bytes).Some?
    requires n <= |Encode(codec.render(r))| && OnBoundary(codec.render(r), n)
    ensures n > 0 ==> torn != []
    ensures var more := bytes + Encode(codec.render(r))[..n];
            && Holds(codec, more, torn, last + 1) && Decode(more).Some?
            && Settled(Decode(more).value) == Settled(Decode(bytes).value)
  {
    var line, text := codec.render(r), Decode(bytes).value;
    var k: nat :| BoundaryAt(line, n, k);
    Written(bytes, line, n);
    if k == 0 {
      assert line[..0] == "" && text + "" == text;
      torn := pieces;
    } else {
      TearKeeps(codec, text, pieces, last, r, k);
      torn := pieces + [line[..k]];
    }
  }

  // ── any number of writes and crashes ───────────────────────────────────────

  datatype Write = Whole(r: Record) | Torn(r: Record, n: nat)

  predicate Possible(codec: Codec, one: Write) {
    one.Torn? ==> one.n <= |Encode(codec.render(one.r))|
  }

  ghost predicate OnBoundaries(codec: Codec, one: Write) {
    one.Torn? ==> OnBoundary(codec.render(one.r), one.n)
  }

  function Chunk(codec: Codec, one: Write): seq<Byte>
    requires Possible(codec, one)
  {
    if one.Whole? then Encode(codec.render(one.r) + "\n") else Encode(codec.render(one.r))[..one.n]
  }

  function BytesOf(codec: Codec, writes: seq<Write>): seq<Byte>
    requires forall i :: 0 <= i < |writes| ==> Possible(codec, writes[i])
  {
    if writes == [] then []
    else BytesOf(codec, writes[..|writes| - 1]) + Chunk(codec, writes[|writes| - 1])
  }

  /** Nothing torn lies after the last newline. */
  predicate Clean(writes: seq<Write>) {
    writes == [] || writes[|writes| - 1].Whole? || (writes[|writes| - 1].n == 0 && Clean(writes[..|writes| - 1]))
  }

  /** The records that were written to their end on a line of their own. */
  function Kept(writes: seq<Write>): seq<Record> {
    if writes == [] then []
    else
      var before, last := writes[..|writes| - 1], writes[|writes| - 1];
      Kept(before) + if last.Whole? && Clean(before) then [last.r] else []
  }

  /** A file that reads as the kept records, up to its last newline. */
  ghost predicate KeepsSettled(codec: Codec, text: string, pieces: seq<string>, writes: seq<Write>) {
    && Shaped(codec, text, pieces)
    && ReadText(codec, Settled(text)) == Kept(writes)
    && (pieces == [] <==> Clean(writes))
  }

  lemma {:induction false} WholeKeeps(codec: Codec, text: string, pieces: seq<string>, before: seq<Write>, r: Record)
    requires KeepsSettled(codec, text, pieces, before)
    ensures KeepsSettled(codec, text + codec.render(r) + "\n", [], before + [Whole(r)])
  {
    var more := text + codec.render(r) + "\n";
    AppendedText(codec, text, pieces, r);
    assert (before + [Whole(r)])[..|before|] == before;
    assert more[|more| - 1] == '\n' && TailOf(more) == Joined([]);
  }

  lemma {:induction false} TornKeeps(codec: Codec, text: string, pieces: seq<string>, before: seq<Write>, r: Record, n: nat, k: nat)
    returns (torn: seq<string>)
    requires KeepsSettled(codec, text, pieces, before) && BoundaryAt(codec.render(r), n, k)
    ensures KeepsSettled(codec, text + codec.render(r)[..k], torn, before + [Torn(r, n)])
  {
    var line := codec.render(r);
    assert (before + [Torn(r, n)])[..|before|] == before;
    if k == 0 {
      assert line[..0] == "" && text + "" == text;
      torn := pieces;
    } else {
      TornText(codec, text, pieces, r, k);
      AddPiece(codec, pieces, r, k);
      FrontIsLong(line, n, k);
      torn := pieces + [line[..k]];
    }
  }

  lemma {:induction false} FrontIsLong(line: string, n: nat, k: nat)
    requires BoundaryAt(line, n, k) && k > 0
    ensures n > 0
  {
    assert line[..k] != "";
  }

  /** One more write, whole or torn. */
  lemma {:induction false} OneMoreWrite(codec: Codec, bytes: seq<Byte>, left: seq<string>, before: seq<Write>, one: Write)
    returns (pieces: seq<string>)
    requires Possible(codec, one)
    requires Decode(bytes).Some? ==> KeepsSettled(codec, Decode(bytes).value, left, before)
    ensures var text := Decode(bytes + Chunk(codec, one));
            && (text.Some? <==> Decode(bytes).Some? && OnBoundaries(codec, one))
            && (text.Some? ==> KeepsSettled(codec, text.value, pieces, before + [one]))
  {
    var line := codec.render(one.r);
    pieces := [];
    if one.Whole? {
      WrittenWhole(bytes, line + "\n");
      if Decode(bytes).Some? {
        WholeKeeps(codec, Decode(bytes).value, left, before, one.r);
        Reassociated(Decode(bytes).value, line, Decode(bytes).value, line);
      }
    } else {
      Written(bytes, line, one.n);
      if Decode(bytes).Some? && OnBoundary(line, one.n) {
        var k: nat :| BoundaryAt(line, one.n, k);
        pieces := TornKeeps(codec, Decode(bytes).value, left, before, one.r, one.n, k);
      }
    }
  }

  /** Whatever was written and torn, the file can be read exactly if every torn line ends
      between two characters, and it then holds every record kept. */
  lemma {:induction false} WritesLeave(codec: Codec, writes: seq<Write>) returns (pieces: seq<string>)
    requires Lawful(codec) && forall i :: 0 <= i < |writes| ==> Possible(codec, writes[i])
    ensures var text := Decode(BytesOf(codec, writes));
            && (text.Some? <==> forall i :: 0 <= i < |writes| ==> OnBoundaries(codec, writes[i]))
            && (text.Some? ==> KeepsSettled(codec, text.value, pieces, writes))
  {
    if writes == [] {
      pieces := [];
    } else {
      var before, last := writes[..|writes| - 1], writes[|writes| - 1];
      assert writes == before + [last];
      var left := WritesLeave(codec, before);
      pieces := OneMoreWrite(codec, BytesOf(codec, before), left, before, last);
    }
  }

  /** Every record written to its end on a line of its own is read, and at most one more, if
      and only if no crash ever cut a character: otherwise nothing is read at all. */
  lemma {:induction false} TerminatedRecordsAreRead(codec: Codec, writes: seq<Write>)
    requires Lawful(codec) && forall i :: 0 <= i < |writes| ==> Possible(codec, writes[i])
    ensures var read := ReadBytes(codec, BytesOf(codec, writes));
            && (read.Some? <==> forall i :: 0 <= i < |writes| ==> OnBoundaries(codec, writes[i]))
            && (read.Some? ==> Kept(writes) <= read.value && |read.value| <= |Kept(writes)| + 1)
  {
    var pieces := WritesLeave(codec, writes);
    var text := Decode(BytesOf(codec, writes));
    if text.Some? {
      ReadIsSettledFirst(codec, text.value, pieces);
    }
  }

  /** So it is whenever every line is ASCII, and for any other line some crash makes the
      journal unreadable for good. */
  lemma {:induction false} CrashesAreHarmlessForAscii(codec: Codec, writes: seq<Write>, r: Record)
    requires Lawful(codec) && forall i :: 0 <= i < |writes| ==> Possible(codec, writes[i]) && OnBoundaries(codec, writes[i])
    ensures Ascii(codec.render(r)) <==>
            forall n: nat :: Possible(codec, Torn(r, n)) ==> ReadBytes(codec, BytesOf(codec, writes) + Chunk(codec, Torn(r, n))).Some?
  {
    var line, bytes := codec.render(r), BytesOf(codec, writes);
    AsciiIsAllBoundaries(line);
    var pieces := WritesLeave(codec, writes);
    forall n: nat | Possible(codec, Torn(r, n))
      ensures ReadBytes(codec, bytes + Chunk(codec, Torn(r, n))).Some? <==> OnBoundary(line, n)
    {
      Written(bytes, line, n);
    }
    if !Ascii(line) {
      var n := BadCut(line);
      assert Possible(codec, Torn(r, n));
    }
  }

  // ── any number of appends ──────────────────────────────────────────────────

  function Lines(codec: Codec, rs: seq<Record>): string {
    if rs == [] then "" else codec.render(rs[0]) + "\n" + Lines(codec, rs[1..])
  }

  lemma {:induction false} LinesEnd(codec: Codec, rs: seq<Record>)
    ensures EndsLine(Lines(codec, rs))
  {
    if rs != [] {
      LinesEnd(codec, rs[1..]);
      var line, rest := codec.render(rs[0]) + "\n", Lines(codec, rs[1..]);
      assert rest != "" ==> (line + rest)[|line + rest| - 1] == rest[|rest| - 1];
    }
  }

  lemma {:induction false} ReadFirst(codec: Codec, line: string, rest: string)
    requires '\n' !in line
    ensures ReadText(codec, line + "\n" + rest) == Line(codec, line) + ReadText(codec, rest)
  {
    ReadLine(codec, line);
    ReadConcat(codec, line + "\n", rest);
  }

  lemma {:induction false} ReadLines(codec: Codec, rs: seq<Record>)
    requires Lawful(codec)
    ensures ReadText(codec, Lines(codec, rs)) == rs && EndsLine(Lines(codec, rs))
  {
    LinesEnd(codec, rs);
    if rs != [] {
      ReadLines(codec, rs[1..]);
      ReadFirst(codec, codec.render(rs[0]), Lines(codec, rs[1..]));
      assert Line(codec, codec.render(rs[0])) == [rs[0]] && rs == [rs[0]] + rs[1..];
    }
  }

  /** A text of whole records with a part of one after them reads as those records, and still
      does after any number of later appends: only the first of these can be lost. */
  lemma {:induction false} TextSurvives(codec: Codec, rs: seq<Record>, torn: Record, n: nat, later: seq<Record>)
    requires Lawful(codec) && n < |codec.render(torn)|
    ensures ReadText(codec, Lines(codec, rs) + codec.render(torn)[..n]) == rs
    ensures ReadText(codec, Lines(codec, rs) + codec.render(torn)[..n] + Lines(codec, later)) ==
            rs + if n == 0 || later == [] then later else later[1..]
  {
    var whole, piece := Lines(codec, rs), codec.render(torn)[..n];
    ReadLines(codec, rs);
    ReadAfter(codec, whole, piece);
    assert n > 0 ==> Line(codec, piece) == [];
    if n == 0 {
      assert whole + piece == whole;
      ReadConcat(codec, whole, Lines(codec, later));
      ReadLines(codec, later);
    } else if later == [] {
      assert whole + piece + "" == whole + piece;
    } else {
      JoinedThenRead(codec, whole, torn, n, later);
    }
  }

  /** The bytes of whole records with a torn one after them: if the tear is between characters,
      all of the records are read, and still after any number of later appends, of which only
      the first can be lost. If it is inside one, nothing is read, nor ever again. */
  lemma {:induction false} TerminatedRecordsSurvive(codec: Codec, rs: seq<Record>, torn: Record, n: nat, later: seq<Record>)
    requires Lawful(codec) && n < |Encode(codec.render(torn))|
    ensures var bytes := Encode(Lines(codec, rs)) + Encode(codec.render(torn))[..n];
            if OnBoundary(codec.render(torn), n) then
              && ReadBytes(codec, bytes) == Some(rs)
              && ReadBytes(codec, bytes + Encode(Lines(codec, later))) ==
                 Some(rs + if n == 0 || later == [] then later else later[1..])
            else
              ReadBytes(codec, bytes) == None == ReadBytes(codec, bytes + Encode(Lines(codec, later)))
  {
    var whole, line := Encode(Lines(codec, rs)), codec.render(torn);
    var bytes := whole + Encode(line)[..n];
    EncodeDecodes(Lines(codec, rs));
    Written(whole, line, n);
    WrittenWhole(bytes, Lines(codec, later));
    if OnBoundary(line, n) {
      var k: nat :| BoundaryAt(line, n, k);
      NotTheEnd(line, n, k);
      TextSurvives(codec, rs, torn, k, later);
    }
  }

  lemma {:induction false} NotTheEnd(line: string, n: nat, k: nat)
    requires BoundaryAt(line, n, k) && n < |Encode(line)|
    ensures k < |line| && (k == 0 <==> n == 0)
  {
    assert line[..|line|] == line;
    if k > 0 { FrontIsLong(line, n, k); }
  }

  lemma {:induction false} JoinedThenRead(codec: Codec, whole: string, torn: Record, n: nat, later: seq<Record>)
    requires Lawful(codec) && 0 < n < |codec.render(torn)| && later != [] && EndsLine(whole)
    ensures ReadText(codec, whole + codec.render(torn)[..n] + Lines(codec, later)) == ReadText(codec, whole) + later[1..]
  {
    var piece, line, rest := codec.render(torn)[..n], codec.render(later[0]), Lines(codec, later[1..]);
    JoinedIsLost(codec, torn, n, later[0]);
    ReadLines(codec, later[1..]);
    Regrouped(whole, piece, line, rest);
    ReadBetween(codec, whole, piece + line, rest);
    assert ReadText(codec, whole) + [] == ReadText(codec, whole);
  }

  lemma {:induction false} Regrouped(whole: string, piece: string, line: string, rest: string)
    ensures whole + piece + (line + "\n" + rest) == whole + ((piece + line) + "\n") + rest
  {
  }

  /** One line between two texts. */
  lemma {:induction false} ReadBetween(codec: Codec, whole: string, line: string, rest: string)
    requires EndsLine(whole) && '\n' !in line
    ensures ReadText(codec, whole + (line + "\n") + rest) == ReadText(codec, whole) + Line(codec, line) + ReadText(codec, rest)
  {
    var first := whole + (line + "\n");
    assert first[|first| - 1] == '\n';
    ReadAfter(codec, whole, line);
    ReadConcat(codec, first, rest);
  }

  lemma {:induction false} JoinedIsLost(codec: Codec, torn: Record, n: nat, r: Record)
    requires Lawful(codec) && 0 < n < |codec.render(torn)|
    ensures Line(codec, codec.render(torn)[..n] + codec.render(r)) == []
  {
    var line := codec.render(r);
    assert line[..|line|] == line;
    AddPiece(codec, [], torn, n);
    AddPiece(codec, [] + [codec.render(torn)[..n]], r, |line|);
    var joined := [] + [codec.render(torn)[..n]] + [line];
    assert Joined([]) + codec.render(torn)[..n] == codec.render(torn)[..n];
    PiecesSay(codec, joined);
  }
}
