/** From a configuration file back to the value of a locked variable. */
module Recovery {
  import opened Wrappers
  import opened Text
  import opened Dotenv
  import opened LockedEnvs
  import opened EnvEncoding

  /** One environment row as Coolify writes it to its dotenv file. */
  datatype EnvRow = EnvRow(key: string, row: Row, value: string)

  function RawOf(env: EnvRow, isJson: string -> bool): string {
    Encode(env.row, env.value, Dotenv, isJson)
  }

  function WrittenBy(rows: seq<EnvRow>, isJson: string -> bool): seq<Written> {
    seq(|rows|, i requires 0 <= i < |rows| => Written(rows[i].key, RawOf(rows[i], isJson)))
  }

  /** The value taken from the file for one locked row. */
  ghost function FromFile(read: Split, c: Config, env: EnvRow, isJson: string -> bool): Option<string> {
    var raw := TrustedRaw(read, c, env.key);
    if raw.None? then None else Decode(raw.value, env.row, Dotenv, isJson)
  }

  /** A value the splitter can follow: what it spills over the lines after its own record
      leaves no quote open at its end. */
  predicate Followable(env: EnvRow, isJson: string -> bool) {
    Delimitable(RawOf(env, isJson))
  }

  predicate Escaped(env: EnvRow, isJson: string -> bool) {
    env.row.legacy && !env.row.isLiteral && !env.row.isMultiline && !(OpensJson(env.value) && isJson(env.value))
  }

  lemma {:induction false} EscapedIsDelimitable(value: string)
    ensures Delimitable(EscapeEnvVariables(value))
  {
    var raw := EscapeEnvVariables(value);
    if raw != "" && raw[0] in "\"'" {
      EscapedQuote(value, 0);
    }
    forall i | 0 <= i < |raw| - 1 && raw[i] == '=' ensures raw[i + 1] !in "\"'" {
      if raw[i + 1] in "\"'" {
        EscapedQuote(value, i + 1);
      }
    }
    if CutAt(raw) < |raw| {
      NoQuoteAfterEqualsSuffix(raw, CutAt(raw) + 1);
    }
    NothingOpens(Spill(raw));
  }

  lemma {:induction false} EncodedShape(env: EnvRow, isJson: string -> bool)
    ensures Encodable(RawOf(env, isJson))
    ensures !env.row.legacy ==> ExactForm(RawOf(env, isJson))
  {
    var raw := RawOf(env, isJson);
    if !env.row.legacy {
      var inner := ExactInner(env.value, AllowsInterpolation(env.row, env.value, isJson));
      assert raw[1..|raw| - 1] == inner;
    } else if Escaped(env, isJson) {
      EscapedIsDelimitable(env.value);
    }
  }

  /** Every encoded value is one or the other, and only a legacy literal or JSON value that
      holds a newline can be beyond the splitter. */
  lemma {:induction false} EncodedIsDelimitable(env: EnvRow, isJson: string -> bool)
    ensures Encodable(RawOf(env, isJson))
    ensures Followable(env, isJson) <==> Aligned(Spill(RawOf(env, isJson)))
    ensures !env.row.legacy || Escaped(env, isJson) || '\n' !in env.value ==> Followable(env, isJson)
    ensures env.row.legacy && !Escaped(env, isJson) ==>
              RawOf(env, isJson) == env.value || RawOf(env, isJson) == "'" + env.value + "'"
  {
    var raw := RawOf(env, isJson);
    EncodedShape(env, isJson);
    if Escaped(env, isJson) {
      EscapedIsDelimitable(env.value);
    } else if '\n' !in env.value {
      if env.row.legacy { OneLine(env, isJson); }
      ScannedWhole(raw, "");
    }
  }

  lemma {:induction false} OneLine(env: EnvRow, isJson: string -> bool)
    requires env.row.legacy && !Escaped(env, isJson) && '\n' !in env.value
    ensures Whole(RawOf(env, isJson))
  {
    var raw := RawOf(env, isJson);
    if !(OpensJson(env.value) && isJson(env.value)) {
      assert raw[1..|raw| - 1] == env.value;
    }
  }

  /** The rows of one file. Its last value is not cut off silently by a missing newline. */
  ghost predicate Writable(rows: seq<EnvRow>, terminated: bool, isJson: string -> bool) {
    && (forall i :: 0 <= i < |rows| ==> Printable(rows[i], isJson))
    && (!terminated && rows != [] ==> !CutSilently(RawOf(rows[|rows| - 1], isJson)))
  }

  predicate Printable(env: EnvRow, isJson: string -> bool) {
    ValidKey(env.key) && Followable(env, isJson)
  }

  lemma {:induction false} WritableIsPrinted(rows: seq<EnvRow>, terminated: bool, isJson: string -> bool)
    ensures Writable(rows, terminated, isJson) <==> Printed(WrittenBy(rows, isJson), terminated)
  {
    var w := WrittenBy(rows, isJson);
    forall i | 0 <= i < |rows|
      ensures Printable(rows[i], isJson) <==> ValidKey(w[i].key) && Delimitable(w[i].raw)
    {
    }
    assert rows != [] ==> w[|w| - 1].raw == RawOf(rows[|rows| - 1], isJson);
  }

  /** Recovery never returns a different value: whatever was written around it, and wherever
      values hold newlines, a locked row gets back its own value or nothing. */
  lemma {:induction false} RecoveredIsWritten(rows: seq<EnvRow>, terminated: bool, c: Config, isJson: string -> bool, i: nat)
    requires JsonFacts(isJson) && i < |rows|
    requires Writable(rows, terminated, isJson) && Sound(c, WrittenBy(rows, isJson))
    ensures var text := Print(WrittenBy(rows, isJson), terminated);
            var value := FromFile(Scan(text), c, rows[i], isJson);
            value == None || value == Some(rows[i].value)
  {
    var w := WrittenBy(rows, isJson);
    var read := Scan(Print(w, terminated));
    WritableIsPrinted(rows, terminated, isJson);
    TrustedIsWritten(w, terminated, c, i);
    var value := FromFile(read, c, rows[i], isJson);
    if value.Some? {
      DecodeIsInverse(w[i].raw, rows[i].row, Dotenv, isJson, value.value);
      EncodeInjective(rows[i].row, value.value, rows[i].value, Dotenv, isJson);
    }
  }

  lemma {:induction false} OnlyRecord(items: seq<Item>, i: nat)
    requires i < |items|
    requires forall k :: 0 <= k < |items| && k != i ==> items[k].key != items[i].key
    ensures RecordsOf(items, items[i].key) == [items[i].record]
    decreases |items|
  {
    var front := items[..|items| - 1];
    if i == |front| {
      NoRecords(front, items[i].key);
    } else {
      OnlyRecord(front, i);
    }
  }

  lemma {:induction false} KeyOccursOnce(w: seq<Written>, i: nat)
    requires DistinctKeys(w) && i < |w|
    ensures RecordsOf(ItemsOf(w), w[i].key) == [ItemOf(w[i]).record]
  {
    OnlyRecord(ItemsOf(w), i);
  }

  /** And nothing is lost that could be told apart: in a file of exactly escaped rows with
      distinct expected keys every non-empty value is recovered. */
  lemma {:induction false} ExactFileRecovers(rows: seq<EnvRow>, terminated: bool, c: Config, isJson: string -> bool, i: nat)
    requires JsonFacts(isJson) && i < |rows| && rows[i].value != ""
    requires forall j :: 0 <= j < |rows| ==> ValidKey(rows[j].key) && !rows[j].row.legacy
    requires DistinctKeys(WrittenBy(rows, isJson))
    ensures FromFile(Scan(Print(WrittenBy(rows, isJson), terminated)), c, rows[i], isJson) == Some(rows[i].value)
  {
    var w := WrittenBy(rows, isJson);
    forall j | 0 <= j < |w| ensures ExactForm(w[j].raw) && !CutSilently(w[j].raw) {
      var inner := ExactInner(rows[j].value, AllowsInterpolation(rows[j].row, rows[j].value, isJson));
      assert w[j].raw[1..|w[j].raw| - 1] == inner;
    }
    ExactIsTrusted(w, terminated, c, i);
    DecodeIsInverse(w[i].raw, rows[i].row, Dotenv, isJson, rows[i].value);
  }

  lemma {:induction false} ExactIsTrusted(w: seq<Written>, terminated: bool, c: Config, i: nat)
    requires i < |w| && DistinctKeys(w)
    requires forall j :: 0 <= j < |w| ==> ValidKey(w[j].key) && ExactForm(w[j].raw) && !CutSilently(w[j].raw)
    ensures TrustedRaw(Scan(Print(w, terminated)), c, w[i].key) == Some(w[i].raw)
  {
    WholeRoundTrip(w, terminated);
    KeyOccursOnce(w, i);
    AllClosedNoneOpen(w, c, w[i].key);
  }

  lemma {:induction false} AllClosedNoneOpen(w: seq<Written>, c: Config, key: string)
    requires forall j :: 0 <= j < |w| ==> ExactForm(w[j].raw)
    ensures key !in OpenEnded(ItemsOf(w), c)
  {
    var items := ItemsOf(w);
    forall j | 0 <= j < |items| ensures items[j].record.closed {
      assert items[j] == ItemOf(w[j]);
    }
  }

  /** A key read at two places is counted twice. */
  lemma {:induction false} ReadTwice(items: seq<Item>, p: nat, q: nat)
    requires p < q < |items| && items[p].key == items[q].key
    ensures |RecordsOf(items, items[p].key)| > 1
  {
    assert items == items[..q] + items[q..];
    RecordsOfConcat(items[..q], items[q..], items[p].key);
    OccursCounted(items[..q], p, items[p].key);
    OccursCounted(items[q..], 0, items[p].key);
  }

  lemma {:induction false} AnomalousMeans(read: Split, c: Config)
    ensures Anomalous(read, c) <==>
              || read.anomaly
              || (exists q, r :: 0 <= q < r < |read.items| && read.items[q].key == read.items[r].key)
              || (exists q :: 0 <= q < |read.items| && read.items[q].key !in c.rows && !c.generated(read.items[q].key))
  {
    var items := read.items;
    if q, r :| 0 <= q < r < |items| && items[q].key == items[r].key {
      ReadTwice(items, q, r);
    } else {
      forall q | 0 <= q < |items| ensures |RecordsOf(items, items[q].key)| == 1 {
        OnlyRecord(items, q);
      }
    }
  }

  lemma {:induction false} OpenEndedMeans(items: seq<Item>, c: Config, p: nat)
    requires p < |items|
    requires forall q :: 0 <= q < |items| && q != p ==> items[q].key != items[p].key
    ensures items[p].key in OpenEnded(items, c) <==>
              p + 1 < |items| && !items[p].record.closed && !StartsARecord(items[p + 1], c)
  {
  }

  /** Exactly when a record is trusted: it is the only one of its key, and either a double
      quote closes it, or there is no anomaly and it ends the file or stands before a line
      that was certainly written. */
  lemma {:induction false} TrustedMeans(read: Split, c: Config, p: nat, next: nat)
    requires p < |read.items| && next == p + 1
    ensures var items := read.items;
            TrustedRaw(read, c, items[p].key) ==
              if && (forall q :: 0 <= q < |items| && q != p ==> items[q].key != items[p].key)
                 && (|| items[p].record.closed
                     || (&& !read.anomaly
                         && (forall q, r :: 0 <= q < r < |items| ==> items[q].key != items[r].key)
                         && (forall q :: 0 <= q < |items| ==> items[q].key in c.rows || c.generated(items[q].key))
                         && (|| next == |items|
                             || items[next].key in c.certain
                             || (items[next].key == "HOST" && c.hostWritten && items[next].record.raw == "0.0.0.0")
                             || (&& items[next].key == "PORT" && c.portWritten && items[next].record.raw != ""
                                 && forall k :: 0 <= k < |items[next].record.raw| ==> '0' <= items[next].record.raw[k] <= '9'))))
              then Some(items[p].record.raw) else None
  {
    var items := read.items;
    if q :| 0 <= q < |items| && q != p && items[q].key == items[p].key {
      ReadTwice(items, if p < q then p else q, if p < q then q else p);
    } else {
      OnlyRecord(items, p);
      AnomalousMeans(read, c);
      OpenEndedMeans(items, c, p);
    }
  }

  lemma {:induction false} AbsentIsNotTrusted(read: Split, c: Config, key: string)
    requires forall q :: 0 <= q < |read.items| ==> read.items[q].key != key
    ensures TrustedRaw(read, c, key) == None
  {
    NoRecords(read.items, key);
  }

  // ── where the promise fails ────────────────────────────────────────────────

  /** One of the names that Coolify may generate. */
  const GENERATED: string := "COOLIFY_URL"

  /** The same text, cut up differently. */
  lemma {:induction false} OneTextTwoFiles(p: string, q: string, r: string, key: string, s: string)
    ensures Print([Written("A", p + "\nB=" + q), Written("B", r + ("\n" + key + "=") + s)], true) ==
            Print([Written("A", p), Written("B", q + "\nB=" + r), Written(key, s)], true)
  {
    var z := "\n" + key + "=";
    var one, other := [Written("B", r + z + s)], [Written("B", q + "\nB=" + r), Written(key, s)];
    PrintCons("A", p + "\nB=" + q, one);
    PrintCons("B", r + z + s, []);
    PrintCons("A", p, other);
    PrintCons("B", q + "\nB=" + r, [Written(key, s)]);
    PrintCons(key, s, []);
    assert [Written("B", r + z + s)] + [] == one && [Written(key, s)] + [] == [Written(key, s)];
    assert [Written("B", q + "\nB=" + r)] + [Written(key, s)] == other;
    assert [Written("A", p + "\nB=" + q)] + one == [Written("A", p + "\nB=" + q), Written("B", r + z + s)];
    assert [Written("A", p)] + other == [Written("A", p), Written("B", q + "\nB=" + r), Written(key, s)];
    Regroup(p, q, r, key, s);
  }

  lemma {:induction false} Regroup(p: string, q: string, r: string, key: string, s: string)
    ensures "A" + "=" + (p + "\nB=" + q) + ("\n" + ("B" + "=" + (r + ("\n" + key + "=") + s) + ("\n" + ""))) ==
            "A" + "=" + p + ("\n" + ("B" + "=" + (q + "\nB=" + r) + ("\n" + (key + "=" + s + ("\n" + "")))))
  {
    var l := "A" + "=" + (p + "\nB=" + q) + ("\n" + ("B" + "=" + (r + ("\n" + key + "=") + s) + ("\n" + "")));
    assert l == ("A" + "=" + p) + (("\nB=" + q) + (("\nB=" + r) + (("\n" + key + "=" + s) + "\n")));
  }

  lemma {:induction false} PrintCons(key: string, raw: string, more: seq<Written>)
    ensures Print([Written(key, raw)] + more, true) == key + "=" + raw + ("\n" + Print(more, true))
  {
    assert ([Written(key, raw)] + more)[1..] == more;
  }

  const CUT: seq<Written> := [Written("A", "'x'"), Written("B", "\"y'\nB='q\""), Written(GENERATED, "'z'")]

  lemma {:induction false} OneLetterLiteral(c: char)
    requires c != '\n' && c != '\''
    ensures LiteralForm("'" + [c] + "'")
  {
    var raw := "'" + [c] + "'";
    assert raw[1..2] == [c];
  }

  lemma {:induction false} CutExactly()
    ensures ExactForm("\"y'\nB='q\"") && Legible(Written("B", "\"y'\nB='q\""))
  {
    var inner := "y'\nB='q";
    assert "\"y'\nB='q\""[1..8] == inner;
    Unescaped(inner);
  }

  lemma {:induction false} CutIsWhole()
    ensures Printed(CUT, true) && DistinctKeys(CUT)
    ensures forall i :: 0 <= i < |CUT| ==> Whole(CUT[i].raw)
  {
    LettersAreWhole("A", 'x');
    LettersAreWhole(GENERATED, 'z');
    assert "'" + ['x'] + "'" == "'x'" && "'" + ['z'] + "'" == "'z'";
    CutExactly();
    forall i | 0 <= i < |CUT| ensures Whole(CUT[i].raw) && Legible(CUT[i]) {
      if i == 0 {
      } else if i == 1 {
      } else {
      }
    }
    assert CUT[0].key[0] == 'A' && CUT[1].key[0] == 'B' && CUT[2].key[0] == GENERATED[0];
  }

  lemma {:induction false} LettersAreWhole(key: string, c: char)
    requires c != '\n' && c != '\'' && key in {"A", GENERATED}
    ensures var raw := "'" + [c] + "'"; Whole(raw) && Legible(Written(key, raw))
  {
    OneLetterLiteral(c);
  }

  lemma {:induction false} Unescaped(inner: string)
    requires '\\' !in inner && '"' !in inner
    ensures UnescapeInner(inner) == Some(inner)
  {
    if inner != "" {
      Unescaped(inner[1..]);
      assert inner == [inner[0]] + inner[1..];
    }
  }

  /** Two literals with a `'` right before a newline. */
  const SPLIT_LITERALS: seq<EnvRow> :=
    [EnvRow("A", Row(true, true, false), "x'\nB=\"y"), EnvRow("B", Row(true, true, false), "q\"" + ("\n" + GENERATED + "=") + "'z")]

  /** What Coolify may have generated is one such name; the two rows are in the file for certain. */
  const SPLIT_CONFIG: Config := Config({"A", "B"}, key => key == GENERATED, {"A", "B"}, false, false)

  lemma {:induction false} SplitLiteralsPrintCut(isJson: string -> bool)
    ensures Print(WrittenBy(SPLIT_LITERALS, isJson), true) == Print(CUT, true)
  {
    var w := WrittenBy(SPLIT_LITERALS, isJson);
    assert w[0].raw == "'" + "x'\nB=\"y" + "'" == "'x'" + "\nB=" + "\"y'";
    var z := "\n" + GENERATED + "=";
    assert w[1].raw == "'" + ("q\"" + z + "'z") + "'" == "'q\"" + z + "'z'";
    assert w == [Written("A", "'x'" + "\nB=" + "\"y'"), Written("B", "'q\"" + z + "'z'")];
    OneTextTwoFiles("'x'", "\"y'", "'q\"", GENERATED, "'z'");
    assert "\"y'" + "\nB=" + "'q\"" == CUT[1].raw;
  }

  lemma {:induction false} CutIsTrusted()
    ensures TrustedRaw(Scan(Print(CUT, true)), SPLIT_CONFIG, "A") == Some("'x'")
  {
    CutIsWhole();
    WholeRoundTrip(CUT, true);
    CutIsClean();
    KeyOccursOnce(CUT, 0);
    CutIsFollowed();
  }

  lemma {:induction false} CutIsClean()
    requires DistinctKeys(CUT)
    ensures !Anomalous(Split(ItemsOf(CUT), false), SPLIT_CONFIG)
  {
    var items := ItemsOf(CUT);
    forall i | 0 <= i < |items| ensures |RecordsOf(items, items[i].key)| == 1 && ExpectedKey(items[i].key, SPLIT_CONFIG) {
      KeyOccursOnce(CUT, i);
      assert items[i].key == CUT[i].key;
    }
  }

  /** The record after A's is B's own line, which is there for certain. */
  lemma {:induction false} CutIsFollowed()
    ensures "A" !in OpenEnded(ItemsOf(CUT), SPLIT_CONFIG)
  {
    var items := ItemsOf(CUT);
    assert items[0].key[0] == 'A' && items[1].key[0] == 'B' && items[2].key[0] == 'C';
    assert StartsARecord(items[1], SPLIT_CONFIG);
  }

  /** There the value cut at that quote is trusted, and decoded as the variable's value:
      without the condition on literals a wrong value is returned. */
  lemma {:induction false} TruncatedLiteralIsRecovered(isJson: string -> bool)
    requires JsonFacts(isJson)
    ensures Sound(SPLIT_CONFIG, WrittenBy(SPLIT_LITERALS, isJson))
    ensures FromFile(Scan(Print(WrittenBy(SPLIT_LITERALS, isJson), true)), SPLIT_CONFIG, SPLIT_LITERALS[0], isJson) == Some("x")
  {
    SplitLiteralsPrintCut(isJson);
    CutIsTrusted();
    SplitIsSound(isJson);
    DecodesToX(isJson);
  }

  lemma {:induction false} SplitIsSound(isJson: string -> bool)
    ensures Sound(SPLIT_CONFIG, WrittenBy(SPLIT_LITERALS, isJson))
  {
    var w := WrittenBy(SPLIT_LITERALS, isJson);
    assert w[0].key == "A" && w[1].key == "B";
  }

  lemma {:induction false} DecodesToX(isJson: string -> bool)
    requires JsonFacts(isJson)
    ensures Decode("'x'", SPLIT_LITERALS[0].row, Dotenv, isJson) == Some("x")
  {
    LiteralDecodes(SPLIT_LITERALS[0].row, isJson);
  }

  lemma {:induction false} LiteralDecodes(row: Row, isJson: string -> bool)
    requires JsonFacts(isJson) && row == Row(true, true, false)
    ensures Decode("'x'", row, Dotenv, isJson) == Some("x")
  {
    assert Encode(row, "x", Dotenv, isJson) == "'x'" by {
      assert "'" + "x" + "'" == "'x'";
    }
    DecodeIsInverse("'x'", row, Dotenv, isJson, "x");
  }

  /** A plain value ending in its only newline, last in a file that does not end in one of
      its own, prints exactly like the value without it: no reader can tell them apart. */
  lemma {:induction false} UnterminatedCollides(w: seq<Written>, key: string, line: string)
    ensures Print(w + [Written(key, line + "\n")], false) == Print(w + [Written(key, line)], true)
    decreases |w|
  {
    var a, b := w + [Written(key, line + "\n")], w + [Written(key, line)];
    if w == [] {
      assert Print(b[1..], true) == "";
      assert key + "=" + (line + "\n") == key + "=" + line + "\n";
    } else {
      assert a[1..] == w[1..] + [Written(key, line + "\n")] && b[1..] == w[1..] + [Written(key, line)];
      UnterminatedCollides(w[1..], key, line);
    }
  }

  // ── reading the file ───────────────────────────────────────────────────────

  /** One copy of a file out of two reads with a NUL between them. */
  function SingleCopy(stdout: string): Option<string> {
    if |stdout| % 2 == 0 then None
    else
      var half := |stdout| / 2;
      if stdout[half] == '\0' && stdout[..half] == stdout[half + 1..] then Some(stdout[..half]) else None
  }

  /** Exactly two equal reads are accepted, whatever bytes they hold. */
  lemma {:induction false} SingleCopyIsTwoReads(stdout: string, text: string)
    ensures SingleCopy(stdout) == Some(text) <==> stdout == text + "\0" + text
  {
    if SingleCopy(stdout) == Some(text) {
      var half := |stdout| / 2;
      assert stdout == stdout[..half] + [stdout[half]] + stdout[half + 1..];
    }
    if stdout == text + "\0" + text {
      assert stdout[..|text|] == text && stdout[|text| + 1..] == text;
    }
  }
}
