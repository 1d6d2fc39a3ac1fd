/** Exactly which values, and which ends of a file, recovery can answer wrongly. */
module RecoveryLimits {
  import opened Wrappers
  import opened Text
  import opened Dotenv
  import opened LockedEnvs
  import opened EnvEncoding
  import opened Recovery

  /** Recovery gives the row its own value or nothing. */
  ghost predicate NeverWrong(rows: seq<EnvRow>, terminated: bool, c: Config, isJson: string -> bool, i: nat)
    requires i < |rows|
  {
    var value := FromFile(Scan(Print(WrittenBy(rows, isJson), terminated)), c, rows[i], isJson);
    value == None || value == Some(rows[i].value)
  }

  // ── a quote left open ──────────────────────────────────────────────────────

  lemma {:induction false} FirstQuote(z: string, w: string)
    requires '"' !in z && '\\' !in z
    ensures ClosingDoubleQuote(z + ("\"" + w)) == Some(|z|)
  {
    var t := z + ("\"" + w);
    if z != "" {
      assert z[0] != '"' && z[0] != '\\';
      assert t[1..] == z[1..] + ("\"" + w);
      FirstQuote(z[1..], w);
    }
  }

  /** A double quote open at the end of a text runs on to the next one, even when an escape
      is pending there: that takes the newline. */
  lemma {:induction false} OpenDouble(x: string, after: string, k: nat)
    requires ClosingDoubleQuote(x).None? && after != "" && k > 0
    requires ClosingDoubleQuote(after) == Some(k) && ClosingDoubleQuote(after[1..]) == Some(k - 1)
    ensures ClosingDoubleQuote(x + after) == Some(|x| + k)
    decreases |x|
  {
    var t := x + after;
    if x == "" {
      assert t == after;
    } else if x == "\\" {
      assert t[2..] == after[1..];
    } else if x[0] == '\\' {
      assert t[2..] == x[2..] + after;
      OpenDouble(x[2..], after, k);
    } else {
      assert t[1..] == x[1..] + after;
      OpenDouble(x[1..], after, k);
    }
  }

  lemma {:induction false} OpenThenClosed(v: string, z: string, w: string)
    requires v != "" && ClosingDoubleQuote(v[1..]).None?
    requires z != "" && '"' !in z && '\\' !in z
    ensures ClosingDoubleQuote((v + (z + ("\"" + w)))[1..]) == Some(|v| - 1 + |z|)
  {
    var after := z + ("\"" + w);
    FirstQuote(z, w);
    FirstQuote(z[1..], w);
    SplitConcat(z, "\"" + w, 1);
    SplitConcat(v, after, 1);
    OpenDouble(v[1..], after, |z|);
  }

  /** A single quote open at the end of a text runs on to the next one that ends a line. */
  lemma {:induction false} OpenSingle(x: string, z: string, w: string)
    requires ClosingSingleQuote(x).None? && '\'' !in z
    ensures ClosingSingleQuote(x + (z + ("'\n" + w))) == Some(|x| + |z|)
    decreases |x| + |z|
  {
    var after := z + ("'\n" + w);
    var t := x + after;
    if x != "" {
      assert t[1..] == x[1..] + after;
      assert x[0] == '\'' ==> |x| > 1 && t[1] == x[1];
      OpenSingle(x[1..], z, w);
    } else if z != "" {
      assert z[0] != '\'';
      assert t[1..] == "" + (z[1..] + ("'\n" + w));
      OpenSingle("", z[1..], w);
    } else {
      assert t[0] == '\'' && t[1] == '\n';
    }
  }

  predicate Without(items: seq<Item>, key: string) {
    forall i :: 0 <= i < |items| ==> items[i].key != key
  }

  /** The first turn of a text that is not aligned, when its own quote closes. */
  lemma {:induction false} OneTurn(body: string, tail: string, c: string) returns (turn: Turn, rest: string)
    requires body != "" && ClosesWithin(body) && !Aligned(body) && AtBreak(tail) && |c| > |body|
    ensures |rest| < |body| && !Aligned(rest)
    ensures Scan(body + tail) == Then(turn, Scan(rest + tail))
    ensures turn.item.Some? ==> turn.item.value.key != c
  {
    var e := TurnConcat(body, tail);
    DropWithin(body, tail, e + 1);
    ScanTurn(body + tail);
    turn, rest := ScanOne(body + tail), Drop(body, e + 1);
    KeyIsShort(body);
  }

  lemma {:induction false} KeyIsShort(t: string)
    requires t != ""
    ensures ScanOne(t).item.Some? ==> |ScanOne(t).item.value.key| < |t|
  {
  }

  /** Where a text that is not aligned leaves its quote open, with lines after it. */
  lemma {:induction false} OpenReached(body: string, tail: string, c: string) returns (front: Split, last: string)
    requires !Aligned(body) && AtBreak(tail) && |c| > |body|
    ensures last != "" && !ClosesWithin(last) && |last| <= |body|
    ensures Scan(body + tail) == Before(front, Scan(last + tail)) && Without(front.items, c)
    decreases |body|
  {
    if ClosesWithin(body) {
      var turn, rest := OneTurn(body, tail, c);
      var more;
      more, last := OpenReached(rest, tail, c);
      front := Then(turn, more);
      ThenBefore(turn, more, Scan(last + tail));
    } else {
      front, last := Split([], false), body;
      assert [] + Scan(last + tail).items == Scan(last + tail).items;
    }
  }

  // ── a file that turns it into a wrong value ────────────────────────────────

  const EXACT: Row := Row(false, false, false)
  const LITERAL: Row := Row(true, true, false)

  function Copies(c: char, n: nat): string {
    seq(n, _ => c)
  }

  /** A record for `c` that nobody wrote, and the end of the literal that holds it. */
  function Fake(c: string): string {
    c + "=" + ("\"zzz\"" + "\nb'")
  }

  function Bait(b: string, c: string): EnvRow {
    EnvRow(b, LITERAL, "a'\n" + c + "=\"zzz\"\nb")
  }

  /** The row, an exact row `c`, and a literal with a line that looks like `c`'s. */
  function Trap(env: EnvRow, b: string, c: string): seq<EnvRow> {
    [env, EnvRow(c, EXACT, "real"), Bait(b, c)]
  }

  lemma {:induction false} FakeScans(c: string)
    requires ValidKey(c)
    ensures Scan(Fake(c) + "\n") == Split([Item(c, Record("\"zzz\"", true))], true)
  {
    var rest := "\nb'" + "\n";
    assert Fake(c) + "\n" == c + "=" + ("\"zzz\"" + rest);
    ZzzIsExact();
    assert rest[1..] == "b'\n";
    ExactTurn(c, "\"zzz\"", rest);
    Leftover();
  }

  lemma {:induction false} ExactTurn(key: string, raw: string, tail: string)
    requires ValidKey(key) && ExactForm(raw) && AtBreak(tail)
    ensures Scan(key + "=" + (raw + tail)) == Then(Turn(Some(Item(key, Record(raw, true))), false, Drop(tail, 1)), Scan(Drop(tail, 1)))
  {
    ScanKeyed(key, raw + tail);
    ScanExact(raw, tail);
    ScanTurn(key + "=" + (raw + tail));
  }

  lemma {:induction false} ZzzIsExact()
    ensures ExactForm("\"zzz\"")
  {
    assert "\"zzz\""[1..4] == "zzz";
    Unescaped("zzz");
  }

  lemma {:induction false} Leftover()
    ensures Scan("b'\n") == Split([], true)
  {
    var t := "b'\n";
    assert t[1..] == "'\n" && t[1..][1..] == "\n";
    assert KeyRun("\n") == 0 && KeyRun("'\n") == 1 && KeyRun(t) == 2;
    assert LineEnd("\n") == 0 && LineEnd("'\n") == 1 && LineEnd(t) == 2;
    KeylessTurn(t);
    ScanTurn(t);
  }

  /** The rest of the trap's text after its first row. */
  function AfterRow(b: string, c: string): string {
    "\n" + c + "=" + ("\"real\"" + ("\n" + AfterVictim(b, c)))
  }

  function AfterVictim(b: string, c: string): string {
    b + "=" + ("'a'" + ("\n" + (Fake(c) + "\n")))
  }

  lemma {:induction false} LiteralTurn(key: string, raw: string, tail: string)
    requires ValidKey(key) && LiteralForm(raw) && AtBreak(tail)
    ensures Scan(key + "=" + (raw + tail)) == Then(Turn(Some(Item(key, Record(raw, false))), false, Drop(tail, 1)), Scan(Drop(tail, 1)))
  {
    ScanKeyed(key, raw + tail);
    ScanLiteral(raw, tail);
    ScanTurn(key + "=" + (raw + tail));
  }

  lemma {:induction false} BaitScans(b: string, c: string) returns (front: Split)
    requires ValidKey(b) && b != c
    ensures Scan(AfterVictim(b, c)) == Before(front, Scan(Fake(c) + "\n")) && Without(front.items, c)
  {
    var tail := "\n" + (Fake(c) + "\n");
    OneLetterLiteral('a');
    assert "'" + "a" + "'" == "'a'";
    LiteralTurn(b, "'a'", tail);
    assert Drop(tail, 1) == Fake(c) + "\n";
    front := Chained(Turn(Some(Item(b, Record("'a'", false))), false, Drop(tail, 1)), Scan(Fake(c) + "\n"), c);
  }

  lemma {:induction false} KeyedTurn(t: string, n: nat)
    requires KeyLength(t) == Some(n) && n < |t|
    ensures var r := ScanValue(t[n + 1..]);
            ScanOne(t) == Turn(Some(Item(t[..n], r.record)), r.anomaly, r.rest)
  {
  }

  lemma {:induction false} OpenValue(last: string, tail: string) returns (n: nat)
    requires last != "" && !ClosesWithin(last) && AtBreak(tail)
    ensures n < |last| && !QuoteCloses(last[n + 1..]) && last[n + 1..] != ""
    ensures var r := ScanValue(last[n + 1..] + tail);
            ScanOne(last + tail) == Turn(Some(Item(last[..n], r.record)), r.anomaly, r.rest)
  {
    n := OpenAt(last);
    KeyLengthConcat(last, tail);
    SplitConcat(last, tail, n);
    SplitConcat(last, tail, n + 1);
    KeyedTurn(last + tail, n);
  }

  lemma {:induction false} OpenAt(last: string) returns (n: nat)
    requires last != "" && !ClosesWithin(last)
    ensures n < |last| && KeyLength(last) == Some(n) && !QuoteCloses(last[n + 1..]) && last[n + 1..] != ""
  {
    n := KeyLength(last).value;
  }

  /** An open double quote ends at the next one, and the scan goes on after that line. */
  lemma {:induction false} DoubleRunsOn(v: string, z: string, line: string, after: string)
    requires v != "" && v[0] == '"' && ClosingDoubleQuote(v[1..]).None?
    requires z != "" && '"' !in z && '\\' !in z && '\n' !in line
    ensures ScanValue(v + (z + ("\"" + (line + ("\n" + after))))).rest == after
  {
    var w := line + ("\n" + after);
    OpenThenClosed(v, z, w);
    RestOfLine(line, after);
    Located(v, z, w);
    AfterThatLine(v, z, line, after);
    DoubleRest(v + (z + ("\"" + w)), |v| - 1 + |z|, |line|);
  }

  lemma {:induction false} DoubleRest(t: string, c: nat, line: nat)
    requires t != "" && t[0] == '"' && ClosingDoubleQuote(t[1..]) == Some(c)
    requires c + 2 <= |t| && line == LineEnd(t[c + 2..])
    ensures ScanValue(t).rest == Drop(t, c + 2 + line + 1)
  {
    DoubleReads(t, c, line);
  }

  lemma {:induction false} Located(v: string, z: string, w: string)
    requires v != ""
    ensures |v| + |z| + 1 <= |v + (z + ("\"" + w))|
    ensures (v + (z + ("\"" + w)))[|v| + |z| + 1..] == w
  {
  }

  lemma {:induction false} AfterThatLine(v: string, z: string, line: string, after: string)
    requires v != ""
    ensures Drop(v + (z + ("\"" + (line + ("\n" + after)))), |v| + |z| + 1 + |line| + 1) == after
  {
    var t, n := v + (z + ("\"" + (line + ("\n" + after)))), |v| + |z| + 1 + |line| + 1;
    assert t == (v + z + "\"" + line + "\n") + after;
    assert |v + z + "\"" + line + "\n"| == n;
    assert t[n..] == after;
  }

  /** An open double quote ends at the first quote of `c`'s own line. */
  lemma {:induction false} DoubleSwallows(v: string, b: string, c: string)
    requires v != "" && v[0] == '"' && ClosingDoubleQuote(v[1..]).None?
    requires '"' !in c && '\\' !in c
    ensures ScanValue(v + AfterRow(b, c)).rest == AfterVictim(b, c)
  {
    var z, after := "\n" + c + "=", AfterVictim(b, c);
    DoubleRunsOn(v, z, "real\"", after);
    assert "\"real\"" + ("\n" + after) == "\"" + ("real\"" + ("\n" + after));
  }

  lemma {:induction false} RestOfLine(line: string, after: string)
    requires '\n' !in line
    ensures LineEnd(line + ("\n" + after)) == |line|
  {
    LineEndConcat(line, "\n" + after);
  }

  /** An open single quote ends where the literal seems to. */
  lemma {:induction false} SingleSwallows(v: string, b: string, c: string)
    requires v != "" && v[0] == '\'' && ClosingSingleQuote(v[1..]).None?
    requires '\'' !in c && '\'' !in b
    ensures ScanValue(v + AfterRow(b, c)).rest == Fake(c) + "\n"
  {
    var z, after := "\n" + c + "=\"real\"\n" + b + "=", Fake(c) + "\n";
    ToFirstQuote(b, c, z);
    assert AfterRow(b, c) == (z + "'a") + ("'\n" + after);
    SingleRunsOn(v, z, after);
  }

  lemma {:induction false} SingleRunsOn(v: string, z: string, after: string)
    requires v != "" && v[0] == '\'' && ClosingSingleQuote(v[1..]).None? && '\'' !in z
    ensures ScanValue(v + ((z + "'a") + ("'\n" + after))).rest == after
  {
    var more := (z + "'a") + ("'\n" + after);
    SplitConcat(v, more, 1);
    SingleRuns(v[1..], z, after);
    SingleReads(v + more, |v| + |z| + 1);
    AfterThatQuote(v, z, after);
  }

  lemma {:induction false} SingleReads(t: string, close: nat)
    requires t != "" && t[0] == '\'' && ClosingSingleQuote(t[1..]) == Some(close)
    ensures ScanValue(t).rest == Drop(t, close + 3)
  {
  }

  lemma {:induction false} AfterThatQuote(v: string, z: string, after: string)
    ensures Drop(v + ((z + "'a") + ("'\n" + after)), |v| + |z| + 4) == after
  {
    assert v + ((z + "'a") + ("'\n" + after)) == (v + z + "'a'\n") + after;
    DropConcat(v + z + "'a'\n", after, 0);
  }

  lemma {:induction false} ToFirstQuote(b: string, c: string, z: string)
    requires '\'' !in c && '\'' !in b && z == "\n" + c + "=\"real\"\n" + b + "="
    ensures '\'' !in z
  {
  }

  lemma {:induction false} SingleRuns(x: string, z: string, w: string)
    requires ClosingSingleQuote(x).None? && '\'' !in z
    ensures ClosingSingleQuote(x + ((z + "'a") + ("'\n" + w))) == Some(|x| + |z| + 2)
    decreases |x| + |z|
  {
    var after := (z + "'a") + ("'\n" + w);
    var t := x + after;
    if x != "" {
      assert t[1..] == x[1..] + after;
      assert x[0] == '\'' ==> |x| > 1 && t[1] == x[1];
      SingleRuns(x[1..], z, w);
    } else if z != "" {
      assert z[0] != '\'';
      assert t[1..] == "" + ((z[1..] + "'a") + ("'\n" + w));
      SingleRuns("", z[1..], w);
    } else {
      assert t[0] == '\'' && t[1] == 'a' && t[1..] == "a" + ("" + ("'\n" + w));
      assert ClosingSingleQuote("a").None?;
      OpenSingle("a", "", w);
    }
  }

  lemma {:induction false} Chained(turn: Turn, rest: Split, c: string) returns (front: Split)
    requires turn.item.Some? && turn.item.value.key != c
    ensures Then(turn, rest) == Before(front, rest) && Without(front.items, c)
  {
    front := Front(turn);
    ThenBefore(turn, front, rest);
  }

  predicate PlainKey(key: string) {
    ValidKey(key) && '"' !in key && '\'' !in key && '\\' !in key
  }

  /** Either way the line of `c` is gone, and the next record read for it is the fake. */
  lemma {:induction false} Swallowed(last: string, b: string, c: string) returns (front: Split)
    requires last != "" && !ClosesWithin(last) && |c| > |last|
    requires PlainKey(b) && PlainKey(c) && b != c
    ensures Scan(last + AfterRow(b, c)) == Before(front, Scan(Fake(c) + "\n")) && Without(front.items, c)
  {
    var tail := AfterRow(b, c);
    assert AtBreak(tail);
    var n := OpenValue(last, tail);
    var v := last[n + 1..];
    var turn := ScanOne(last + tail);
    ScanTurn(last + tail);
    if v[0] == '"' {
      DoubleSwallows(v, b, c);
      var head := Chained(turn, Scan(AfterVictim(b, c)), c);
      var more := BaitScans(b, c);
      BeforeBefore(head, more, Scan(Fake(c) + "\n"));
      front := Before(head, more);
    } else {
      SingleSwallows(v, b, c);
      front := Chained(turn, Scan(Fake(c) + "\n"), c);
    }
  }

  lemma {:induction false} LiteralRaw(key: string, value: string, isJson: string -> bool)
    requires !OpensJson(value)
    ensures RawOf(EnvRow(key, LITERAL, value), isJson) == "'" + value + "'"
  {
  }

  lemma {:induction false} BaitRaw(b: string, c: string, isJson: string -> bool)
    ensures RawOf(Bait(b, c), isJson) == "'a'" + ("\n" + Fake(c))
  {
    LiteralRaw(b, Bait(b, c).value, isJson);
    assert "'" + Bait(b, c).value + "'" == "'a'" + ("\n" + Fake(c));
  }

  lemma {:induction false} TrapRows(env: EnvRow, b: string, c: string, isJson: string -> bool)
    ensures WrittenBy(Trap(env, b, c), isJson) ==
            [Written(env.key, RawOf(env, isJson)), Written(c, "\"real\""), Written(b, "'a'" + ("\n" + Fake(c)))]
  {
    RealIsQuoted(c, isJson);
    BaitRaw(b, c, isJson);
  }

  lemma {:induction false} TrapText(env: EnvRow, b: string, c: string, isJson: string -> bool)
    ensures Print(WrittenBy(Trap(env, b, c), isJson), true) == env.key + "=" + (RawOf(env, isJson) + AfterRow(b, c))
  {
    TrapRows(env, b, c, isJson);
    var bait := "'a'" + ("\n" + Fake(c));
    PrintThree(env.key, RawOf(env, isJson), c, "\"real\"", b, bait);
    assert b + "=" + bait + "\n" == AfterVictim(b, c);
  }

  lemma {:induction false} PrintThree(k0: string, r0: string, k1: string, r1: string, k2: string, r2: string)
    ensures Print([Written(k0, r0), Written(k1, r1), Written(k2, r2)], true) ==
            k0 + "=" + (r0 + ("\n" + k1 + "=" + (r1 + ("\n" + (k2 + "=" + r2 + "\n")))))
  {
    PrintCons(k2, r2, []);
    PrintCons(k1, r1, [Written(k2, r2)]);
    PrintCons(k0, r0, [Written(k1, r1), Written(k2, r2)]);
    assert [Written(k2, r2)] + [] == [Written(k2, r2)];
    assert [Written(k1, r1)] + [Written(k2, r2)] == [Written(k1, r1), Written(k2, r2)];
    assert [Written(k0, r0)] + [Written(k1, r1), Written(k2, r2)] == [Written(k0, r0), Written(k1, r1), Written(k2, r2)];
    assert "\n" + "" == "\n";
    var last := k2 + "=" + r2 + "\n";
    assert k1 + "=" + r1 + ("\n" + last) == k1 + "=" + (r1 + ("\n" + last));
    var more := k1 + "=" + (r1 + ("\n" + last));
    assert "\n" + more == "\n" + k1 + "=" + (r1 + ("\n" + last));
    assert k0 + "=" + r0 + ("\n" + more) == k0 + "=" + (r0 + ("\n" + more));
  }

  lemma {:induction false} QuotedPlain(value: string, allow: bool)
    requires '\\' !in value && '"' !in value && '$' !in value
    ensures EscapeComposeEnvFileValue(value, allow) == "\"" + value + "\""
  {
    ReplaceEachAbsent(value, if allow then COMPOSE_ESCAPES else COMPOSE_ESCAPES_LITERAL);
  }

  lemma {:induction false} RealIsQuoted(c: string, isJson: string -> bool)
    ensures RawOf(EnvRow(c, EXACT, "real"), isJson) == "\"real\""
  {
    QuotedPlain("real", AllowsInterpolation(EXACT, "real", isJson));
    assert "\"" + "real" + "\"" == "\"real\"";
  }

  lemma {:induction false} ZzzDecodes(isJson: string -> bool)
    requires JsonFacts(isJson)
    ensures Decode("\"zzz\"", EXACT, Dotenv, isJson) == Some("zzz")
  {
    QuotedPlain("zzz", AllowsInterpolation(EXACT, "zzz", isJson));
    assert "\"" + "zzz" + "\"" == "\"zzz\"";
    DecodeIsInverse("\"zzz\"", EXACT, Dotenv, isJson, "zzz");
  }

  /** The only record of its key, closed and last: trusted under any configuration. */
  lemma {:induction false} FakeIsTrusted(front: Split, c: string, raw: string, config: Config)
    requires Without(front.items, c)
    ensures TrustedRaw(Before(front, Split([Item(c, Record(raw, true))], true)), config, c) == Some(raw)
  {
    var item := Item(c, Record(raw, true));
    RecordsOfSnoc(front.items, item, c);
    NoRecords(front.items, c);
    var items := front.items + [item];
    forall i | 0 <= i < |items| - 1 ensures items[i].key != c {
      assert items[i] == front.items[i];
    }
  }

  /** The row's own record, and what it spills. */
  lemma {:induction false} FirstTurn(key: string, raw: string, tail: string) returns (turn: Turn)
    requires ValidKey(key) && Encodable(raw) && !Aligned(Spill(raw)) && AtBreak(tail)
    ensures turn.item.Some? && turn.item.value.key == key
    ensures Scan(key + "=" + (raw + tail)) == Then(turn, Scan(Spill(raw) + tail))
  {
    CutIsBreak(raw);
    ScannedRecord(raw, tail);
    ScanKeyed(key, raw + tail);
    turn := ScanOne(key + "=" + (raw + tail));
    ScanTurn(key + "=" + (raw + tail));
    DropWithin(raw, tail, CutAt(raw) + 1);
  }

  lemma {:induction false} SpillSwallows(spill: string, b: string, c: string) returns (front: Split)
    requires !Aligned(spill) && |c| > |spill|
    requires PlainKey(b) && PlainKey(c) && b != c
    ensures Scan(spill + AfterRow(b, c)) == Before(front, Scan(Fake(c) + "\n")) && Without(front.items, c)
  {
    assert AtBreak(AfterRow(b, c));
    var reached, last := OpenReached(spill, AfterRow(b, c), c);
    var more := Swallowed(last, b, c);
    BeforeBefore(reached, more, Scan(Fake(c) + "\n"));
    front := Before(reached, more);
  }

  lemma {:induction false} TrapScans(env: EnvRow, b: string, c: string, isJson: string -> bool) returns (front: Split)
    requires ValidKey(env.key) && !Followable(env, isJson)
    requires PlainKey(b) && PlainKey(c) && b != c && |c| > |env.key| && |c| > |RawOf(env, isJson)|
    ensures Scan(Print(WrittenBy(Trap(env, b, c), isJson), true)) == Before(front, Scan(Fake(c) + "\n"))
    ensures Without(front.items, c)
  {
    TrapText(env, b, c, isJson);
    EncodedShape(env, isJson);
    front := RawSwallows(env.key, RawOf(env, isJson), b, c);
  }

  lemma {:induction false} RawSwallows(key: string, raw: string, b: string, c: string) returns (front: Split)
    requires ValidKey(key) && Encodable(raw) && !Delimitable(raw)
    requires PlainKey(b) && PlainKey(c) && b != c && |c| > |key| && |c| > |raw|
    ensures Scan(key + "=" + (raw + AfterRow(b, c))) == Before(front, Scan(Fake(c) + "\n")) && Without(front.items, c)
  {
    assert AfterRow(b, c)[0] == '\n';
    var turn := FirstTurn(key, raw, AfterRow(b, c));
    var more := SpillSwallows(Spill(raw), b, c);
    front := Then(turn, more);
    ThenBefore(turn, more, Scan(Fake(c) + "\n"));
  }

  /** In the trap, whatever the configuration, `c` is answered with a value nobody gave it. */
  lemma {:induction false} TrapAnswersWrongly(env: EnvRow, b: string, c: string, config: Config, isJson: string -> bool)
    requires JsonFacts(isJson) && ValidKey(env.key) && !Followable(env, isJson)
    requires PlainKey(b) && PlainKey(c) && b != c && |c| > |env.key| && |c| > |RawOf(env, isJson)|
    ensures var rows := Trap(env, b, c);
            FromFile(Scan(Print(WrittenBy(rows, isJson), true)), config, rows[1], isJson) == Some("zzz")
  {
    var front := TrapScans(env, b, c, isJson);
    FakeScans(c);
    FakeIsTrusted(front, c, "\"zzz\"", config);
    ZzzDecodes(isJson);
  }

  /** The other two rows of the trap are followable. */
  lemma {:induction false} BaitIsFollowable(b: string, c: string, isJson: string -> bool)
    requires PlainKey(c)
    ensures Followable(Bait(b, c), isJson)
  {
    var raw := RawOf(Bait(b, c), isJson);
    var rest := "\n" + Fake(c);
    BaitRaw(b, c, isJson);
    EncodedShape(Bait(b, c), isJson);
    BaitCut(raw, rest);
    assert Spill(raw) == Fake(c);
    FakeIsAligned(c);
  }

  lemma {:induction false} BaitCut(raw: string, rest: string)
    requires raw == "'a'" + rest && AtBreak(rest) && rest != "" && raw[|raw| - 1] == '\''
    ensures Quoted(raw, '\'') && !ExactForm(raw) && CutAt(raw) == 3
  {
    assert raw[1..] == "a" + ("" + ("'\n" + rest[1..]));
    assert ClosingSingleQuote("a").None?;
    OpenSingle("a", "", rest[1..]);
  }

  lemma {:induction false} FakeIsAligned(c: string)
    requires PlainKey(c)
    ensures Aligned(Fake(c))
  {
    var t, v := Fake(c), "\"zzz\"" + "\nb'";
    KeyRunOf(c, v);
    assert t[|c| + 1..] == v;
    assert v[1..] == "zzz" + ("\"" + "\nb'");
    FirstQuote("zzz", "\nb'");
    ScanKeyed(c, v);
    ZzzIsExact();
    ScanExact("\"zzz\"", "\nb'");
    assert Drop("\nb'", 1) == "b'";
    assert NoQuoteAfterEquals("b'");
    NothingOpens("b'");
  }

  // ── exactly the values it happens to ───────────────────────────────────────

  /** A file that holds the row among others that are all followable. */
  ghost predicate Among(env: EnvRow, rows: seq<EnvRow>, isJson: string -> bool) {
    && env in rows
    && (forall j :: 0 <= j < |rows| ==> ValidKey(rows[j].key) && (Followable(rows[j], isJson) || rows[j] == env))
    && (forall j, k :: 0 <= j < k < |rows| ==> rows[j].key != rows[k].key)
  }

  ghost predicate SafeIn(env: EnvRow, rows: seq<EnvRow>, c: Config, isJson: string -> bool) {
    Among(env, rows, isJson) && Sound(c, WrittenBy(rows, isJson)) ==>
      forall i: nat :: i < |rows| ==> NeverWrong(rows, true, c, isJson, i)
  }

  /** No file that holds the row among followable ones makes recovery answer wrongly. */
  ghost predicate Harmless(env: EnvRow, isJson: string -> bool) {
    forall rows, c :: SafeIn(env, rows, c, isJson)
  }

  lemma {:induction false} CopiesArePlain(c: char, n: nat)
    requires n > 0 && c !in "=\n\"'\\"
    ensures PlainKey(Copies(c, n))
  {
  }

  lemma {:induction false} TrapIsAmong(env: EnvRow, b: string, c: string, isJson: string -> bool)
    requires ValidKey(env.key) && PlainKey(b) && PlainKey(c)
    requires env.key != b && env.key != c && b != c
    ensures Among(env, Trap(env, b, c), isJson)
  {
    EncodedIsDelimitable(EnvRow(c, EXACT, "real"), isJson);
    BaitIsFollowable(b, c, isJson);
    AmongThree(env, EnvRow(c, EXACT, "real"), Bait(b, c), isJson);
  }

  lemma {:induction false} AmongThree(env: EnvRow, one: EnvRow, two: EnvRow, isJson: string -> bool)
    requires ValidKey(env.key) && ValidKey(one.key) && ValidKey(two.key)
    requires Followable(one, isJson) && Followable(two, isJson)
    requires env.key != one.key && env.key != two.key && one.key != two.key
    ensures Among(env, [env, one, two], isJson)
  {
    var rows := [env, one, two];
    assert rows[0] == env;
  }

  /** A value is harmless in every file of followable values if and only if it is followable
      itself: the condition of `RecoveredIsWritten` on each value cannot be widened. */
  lemma {:induction false} FollowableIsHarmless(env: EnvRow, isJson: string -> bool)
    requires JsonFacts(isJson) && ValidKey(env.key)
    ensures Harmless(env, isJson) <==> Followable(env, isJson)
  {
    if Followable(env, isJson) {
      forall rows, c ensures SafeIn(env, rows, c, isJson) {
        if Among(env, rows, isJson) && Sound(c, WrittenBy(rows, isJson)) {
          forall i: nat | i < |rows| ensures NeverWrong(rows, true, c, isJson, i) {
            RecoveredIsWritten(rows, true, c, isJson, i);
          }
        }
      }
    } else {
      NotHarmless(env, isJson);
    }
  }

  /** Keys as long as needed, so that no text of the row holds them. */
  lemma {:induction false} FreshKeys(env: EnvRow, isJson: string -> bool) returns (b: string, c: string)
    ensures PlainKey(b) && PlainKey(c) && b != c && |b| > |env.key|
    ensures |c| > |env.key| && |c| > |RawOf(env, isJson)|
  {
    b, c := Copies('B', |env.key| + 1), Copies('C', |RawOf(env, isJson)| + |env.key| + 2);
    CopiesArePlain('B', |b|);
    CopiesArePlain('C', |c|);
    assert b[0] != c[0];
  }

  lemma {:induction false} WronglyAnswered(env: EnvRow, b: string, c: string, isJson: string -> bool)
    requires JsonFacts(isJson) && ValidKey(env.key) && !Followable(env, isJson)
    requires PlainKey(b) && PlainKey(c) && b != c && |c| > |env.key| && |c| > |RawOf(env, isJson)|
    ensures !NeverWrong(Trap(env, b, c), true, Config({}, key => false, {}, false, false), isJson, 1)
  {
    TrapAnswersWrongly(env, b, c, Config({}, key => false, {}, false, false), isJson);
  }

  lemma {:induction false} NotSafeIn(env: EnvRow, b: string, c: string, isJson: string -> bool)
    requires JsonFacts(isJson) && ValidKey(env.key) && !Followable(env, isJson)
    requires PlainKey(b) && PlainKey(c) && b != c && |b| > |env.key| && |c| > |env.key| && |c| > |RawOf(env, isJson)|
    ensures !SafeIn(env, Trap(env, b, c), Config({}, key => false, {}, false, false), isJson)
  {
    TrapIsAmong(env, b, c, isJson);
    WronglyAnswered(env, b, c, isJson);
  }

  lemma {:induction false} NotHarmless(env: EnvRow, isJson: string -> bool)
    requires JsonFacts(isJson) && ValidKey(env.key) && !Followable(env, isJson)
    ensures !Harmless(env, isJson)
  {
    var b, c := FreshKeys(env, isJson);
    var rows, config := Trap(env, b, c), Config({}, key => false, {}, false, false);
    NotSafeIn(env, b, c, isJson);
    assert !SafeIn(env, rows, config, isJson);
  }

  // ── JSON over several lines ────────────────────────────────────────────────

  /** An object over three lines, whose key ends in an `=`. */
  const JSON: string := "{\"k\":" + ("\n" + ("\"YWJj" + "=" + "\"\n}"))
  const JSON_ROW: EnvRow := EnvRow("J", Row(true, false, false), JSON)
  const LONG_KEY: string := Copies('C', 16)

  /** A value whose second line opens a quote that it does not close. */
  lemma {:induction false} SecondLineOpens(first: string, key: string, v: string)
    requires first != "" && Unopened(first) && '\n' !in first && ValidKey(key) && !QuoteCloses(v)
    ensures !Delimitable(first + ("\n" + (key + "=" + v)))
  {
    var spill := key + "=" + v;
    var raw := first + ("\n" + spill);
    RestOfLine(first, spill);
    assert Unopened(raw) && Spill(raw) == spill;
    KeyRunOf(key, v);
    assert spill[|key| + 1..] == v;
  }

  lemma {:induction false} JsonIsNotFollowable(isJson: string -> bool)
    requires isJson(JSON)
    ensures RawOf(JSON_ROW, isJson) == JSON && !Followable(JSON_ROW, isJson)
  {
    var v := "\"\n}";
    assert v[1..] == "\n}" && "\n}"[1..] == "}" && "}"[1..] == "";
    assert ClosingDoubleQuote("}").None? && ClosingDoubleQuote("\n}").None?;
    SecondLineOpens("{\"k\":", "\"YWJj", v);
  }

  /** One legacy JSON value over three lines is enough: the row after it is exactly escaped
      and yet gets a value that is not its own. */
  lemma {:induction false} JsonHidesALine(config: Config, isJson: string -> bool)
    requires JsonFacts(isJson) && isJson(JSON)
    ensures var rows := Trap(JSON_ROW, "B", LONG_KEY);
            FromFile(Scan(Print(WrittenBy(rows, isJson), true)), config, rows[1], isJson) == Some("zzz") != Some(rows[1].value)
  {
    JsonIsNotFollowable(isJson);
    CopiesArePlain('C', 16);
    CopiesArePlain('B', 1);
    assert Copies('B', 1) == "B" && |JSON| == 15 && |LONG_KEY| == 16;
    TrapAnswersWrongly(JSON_ROW, "B", LONG_KEY, config, isJson);
  }

  // ── a file without a final newline ─────────────────────────────────────────

  /** What is left of a value that ends in its only newline. */
  function Line(raw: string): string
    requires CutSilently(raw)
  {
    raw[..|raw| - 1]
  }

  /** The value may end a file that has no final newline: it keeps its newlines, or the text
      without the last one is no encoding of its row. */
  ghost predicate EndsSafely(env: EnvRow, isJson: string -> bool) {
    var raw := RawOf(env, isJson);
    CutSilently(raw) ==> Decode(Line(raw), env.row, Dotenv, isJson).None?
  }

  function Shortened(w: seq<Written>): seq<Written>
    requires w != [] && CutSilently(w[|w| - 1].raw)
  {
    w[..|w| - 1] + [Written(w[|w| - 1].key, Line(w[|w| - 1].raw))]
  }

  lemma {:induction false} LineIsWhole(raw: string)
    requires CutSilently(raw)
    ensures Whole(Line(raw)) && Delimitable(Line(raw)) && !ExactForm(Line(raw)) && raw == Line(raw) + "\n"
  {
    LineEndIsFirst(raw);
    var line := Line(raw);
    assert raw == line + [raw[|raw| - 1]];
    LineEndConcat(line, "");
    assert line + "" == line;
  }

  /** Such a file prints like one in which its last value lacks the newline. */
  lemma {:induction false} PrintsShortened(w: seq<Written>)
    requires w != [] && CutSilently(w[|w| - 1].raw)
    ensures Print(w, false) == Print(Shortened(w), true)
  {
    var last := w[|w| - 1];
    LineIsWhole(last.raw);
    assert w == w[..|w| - 1] + [Written(last.key, Line(last.raw) + "\n")];
    UnterminatedCollides(w[..|w| - 1], last.key, Line(last.raw));
  }

  ghost predicate AllFollowable(rows: seq<EnvRow>, isJson: string -> bool) {
    forall j :: 0 <= j < |rows| ==> Printable(rows[j], isJson)
  }

  lemma {:induction false} ReadableSnoc(w: seq<Written>, one: Written)
    requires Readable(w) && Legible(one)
    ensures Readable(w + [one])
  {
  }

  lemma {:induction false} ReadableButLast(w: seq<Written>)
    requires Readable(w) && w != []
    ensures Readable(w[..|w| - 1]) && Legible(w[|w| - 1])
  {
  }

  lemma {:induction false} LineIsLegible(one: Written)
    requires Legible(one) && CutSilently(one.raw)
    ensures Legible(Written(one.key, Line(one.raw)))
  {
    LineIsWhole(one.raw);
  }

  lemma {:induction false} ShortenedIsReadable(w: seq<Written>)
    requires w != [] && CutSilently(w[|w| - 1].raw) && Readable(w)
    ensures Readable(Shortened(w))
  {
    var last := w[|w| - 1];
    ReadableButLast(w);
    LineIsLegible(last);
    ReadableSnoc(w[..|w| - 1], Written(last.key, Line(last.raw)));
  }

  lemma {:induction false} ShortenedKeys(w: seq<Written>, j: nat)
    requires w != [] && CutSilently(w[|w| - 1].raw) && j < |w|
    ensures |Shortened(w)| == |w| && Shortened(w)[j].key == w[j].key
    ensures j < |w| - 1 ==> Shortened(w)[j] == w[j]
    ensures Shortened(w)[|w| - 1].raw == Line(w[|w| - 1].raw)
  {
  }

  lemma {:induction false} ShortenedIsSound(w: seq<Written>, c: Config)
    requires w != [] && CutSilently(w[|w| - 1].raw) && Sound(c, w)
    ensures Sound(c, Shortened(w))
  {
    ShortenedKeys(w, 0);
    forall j | 0 <= j < |w| ensures Shortened(w)[j].key == w[j].key {
      ShortenedKeys(w, j);
    }
    SameKeysSound(c, w, Shortened(w));
  }

  lemma {:induction false} SameKeysSound(c: Config, w: seq<Written>, v: seq<Written>)
    requires |w| == |v| && Sound(c, w) && forall j :: 0 <= j < |v| ==> v[j].key == w[j].key
    ensures Sound(c, v)
  {
    forall key | WrittenKey(w, key) ensures WrittenKey(v, key) {
      var j :| 0 <= j < |w| && w[j].key == key;
      assert v[j].key == key;
    }
  }

  lemma {:induction false} WrittenReadable(rows: seq<EnvRow>, isJson: string -> bool)
    requires AllFollowable(rows, isJson)
    ensures Readable(WrittenBy(rows, isJson))
  {
    var w := WrittenBy(rows, isJson);
    forall j | 0 <= j < |w| ensures Legible(w[j]) {
      assert Printable(rows[j], isJson);
    }
  }

  /** What is trusted is what was written, but for the newline of the last value. */
  lemma {:induction false} ShortenedTrusted(w: seq<Written>, c: Config, i: nat)
    requires w != [] && CutSilently(w[|w| - 1].raw) && Sound(c, w) && Readable(w) && i < |w|
    ensures var raw := TrustedRaw(Scan(Print(w, false)), c, w[i].key);
            raw == None || raw == Some(if i < |w| - 1 then w[i].raw else Line(w[i].raw))
  {
    PrintsShortened(w);
    ShortenedIsReadable(w);
    ShortenedIsSound(w, c);
    ShortenedKeys(w, i);
    TrustedIsWritten(Shortened(w), true, c, i);
  }

  lemma {:induction false} TrustedOfRow(rows: seq<EnvRow>, c: Config, isJson: string -> bool, i: nat)
    requires i < |rows| && CutSilently(RawOf(rows[|rows| - 1], isJson))
    requires AllFollowable(rows, isJson) && Sound(c, WrittenBy(rows, isJson))
    ensures var raw := TrustedRaw(Scan(Print(WrittenBy(rows, isJson), false)), c, rows[i].key);
            raw == None || raw == Some(if i < |rows| - 1 then RawOf(rows[i], isJson) else Line(RawOf(rows[i], isJson)))
  {
    var w := WrittenBy(rows, isJson);
    WrittenReadable(rows, isJson);
    ShortenedTrusted(w, c, i);
    assert w[i] == Written(rows[i].key, RawOf(rows[i], isJson));
  }

  lemma {:induction false} ShortenedNeverWrong(rows: seq<EnvRow>, c: Config, isJson: string -> bool, i: nat)
    requires JsonFacts(isJson) && i < |rows|
    requires CutSilently(RawOf(rows[|rows| - 1], isJson)) && EndsSafely(rows[|rows| - 1], isJson)
    requires AllFollowable(rows, isJson) && Sound(c, WrittenBy(rows, isJson))
    ensures NeverWrong(rows, false, c, isJson, i)
  {
    var w := WrittenBy(rows, isJson);
    TrustedOfRow(rows, c, isJson, i);
    if i < |rows| - 1 {
      OwnOrNothing(Scan(Print(w, false)), c, rows[i], isJson);
    } else {
      LineOrNothing(Scan(Print(w, false)), c, rows[i], isJson);
    }
  }

  lemma {:induction false} LineOrNothing(read: Split, c: Config, env: EnvRow, isJson: string -> bool)
    requires CutSilently(RawOf(env, isJson)) && EndsSafely(env, isJson)
    requires TrustedRaw(read, c, env.key) == None || TrustedRaw(read, c, env.key) == Some(Line(RawOf(env, isJson)))
    ensures FromFile(read, c, env, isJson) == None
  {
  }

  /** A text trusted for a row, if it is the row's own, decodes to the row's own value. */
  lemma {:induction false} OwnOrNothing(read: Split, c: Config, env: EnvRow, isJson: string -> bool)
    requires JsonFacts(isJson)
    requires TrustedRaw(read, c, env.key) == None || TrustedRaw(read, c, env.key) == Some(RawOf(env, isJson))
    ensures FromFile(read, c, env, isJson) == None || FromFile(read, c, env, isJson) == Some(env.value)
  {
    var value := FromFile(read, c, env, isJson);
    if value.Some? {
      DecodeIsInverse(RawOf(env, isJson), env.row, Dotenv, isJson, value.value);
      EncodeInjective(env.row, value.value, env.value, Dotenv, isJson);
    }
  }

  function Alone(env: EnvRow): Config {
    Config({env.key}, key => false, {}, false, false)
  }

  /** Alone in a file without a final newline, such a value is trusted without its newline. */
  lemma {:induction false} LineIsTrusted(one: Written, c: Config)
    requires ValidKey(one.key) && CutSilently(one.raw) && one.key in c.rows
    ensures TrustedRaw(Scan(Print([one], false)), c, one.key) == Some(Line(one.raw))
  {
    var w := [Written(one.key, Line(one.raw))];
    LineIsWhole(one.raw);
    assert Shortened([one]) == w;
    PrintsShortened([one]);
    WholeLineReads(one.key, Line(one.raw));
    OneIsTrusted(Item(one.key, Record(Line(one.raw), false)), c);
  }

  lemma {:induction false} WholeLineReads(key: string, line: string)
    requires ValidKey(key) && Whole(line) && Delimitable(line) && !ExactForm(line)
    ensures Scan(Print([Written(key, line)], true)) == Split([Item(key, Record(line, false))], false)
  {
    WholeRoundTrip([Written(key, line)], true);
    assert ItemsOf([Written(key, line)]) == [ItemOf(Written(key, line))];
  }

  lemma {:induction false} OneIsTrusted(item: Item, c: Config)
    requires item.key in c.rows
    ensures TrustedRaw(Split([item], false), c, item.key) == Some(item.record.raw)
  {
    assert [item] == [] + [item];
    RecordsOfSnoc([], item, item.key);
    assert RecordsOf([], item.key) == [];
  }

  lemma {:induction false} WrongAtTheEnd(env: EnvRow, isJson: string -> bool)
    requires JsonFacts(isJson) && ValidKey(env.key) && !EndsSafely(env, isJson)
    ensures !NeverWrong([env], false, Alone(env), isJson, 0)
  {
    var raw := RawOf(env, isJson);
    assert WrittenBy([env], isJson) == [Written(env.key, raw)];
    LineIsTrusted(Written(env.key, raw), Alone(env));
    var value := Decode(Line(raw), env.row, Dotenv, isJson).value;
    DecodeIsInverse(Line(raw), env.row, Dotenv, isJson, value);
    assert Line(raw) != raw;
  }

  ghost predicate SafeAtTheEnd(env: EnvRow, rows: seq<EnvRow>, c: Config, isJson: string -> bool) {
    rows != [] && rows[|rows| - 1] == env && AllFollowable(rows, isJson) && Sound(c, WrittenBy(rows, isJson)) ==>
      forall i: nat :: i < |rows| ==> NeverWrong(rows, false, c, isJson, i)
  }

  ghost predicate HarmlessAtTheEnd(env: EnvRow, isJson: string -> bool) {
    forall rows, c :: SafeAtTheEnd(env, rows, c, isJson)
  }

  lemma {:induction false} SafeEnd(env: EnvRow, rows: seq<EnvRow>, c: Config, isJson: string -> bool, i: nat)
    requires JsonFacts(isJson) && EndsSafely(env, isJson)
    requires rows != [] && rows[|rows| - 1] == env && i < |rows|
    requires AllFollowable(rows, isJson) && Sound(c, WrittenBy(rows, isJson))
    ensures NeverWrong(rows, false, c, isJson, i)
  {
    if CutSilently(RawOf(env, isJson)) {
      ShortenedNeverWrong(rows, c, isJson, i);
    } else {
      RecoveredIsWritten(rows, false, c, isJson, i);
    }
  }

  /** The last value of a file without a final newline is harmless, to itself and to every
      other row, if and only if it ends safely. */
  lemma {:induction false} EndIsHarmless(env: EnvRow, isJson: string -> bool)
    requires JsonFacts(isJson) && Printable(env, isJson)
    ensures HarmlessAtTheEnd(env, isJson) <==> EndsSafely(env, isJson)
  {
    if EndsSafely(env, isJson) {
      forall rows, c ensures SafeAtTheEnd(env, rows, c, isJson) {
        if rows != [] && rows[|rows| - 1] == env && AllFollowable(rows, isJson) && Sound(c, WrittenBy(rows, isJson)) {
          forall i: nat | i < |rows| ensures NeverWrong(rows, false, c, isJson, i) {
            SafeEnd(env, rows, c, isJson, i);
          }
        }
      }
    } else {
      WrongAtTheEnd(env, isJson);
      assert !SafeAtTheEnd(env, [env], Alone(env), isJson);
    }
  }
}
