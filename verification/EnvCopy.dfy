/** Copying an application's variables in one bulk that may stop half-way, without ever
    leaving a recovered secret in an unlocked preview row. */
module EnvCopy {
  import opened Wrappers

  /** A source row; `hidden` when the API withheld its value. */
  datatype Row = Row(key: string, isPreview: bool, locked: bool, hidden: bool, value: Option<string>)

  datatype Entry = Entry(key: string, isPreview: bool, locked: bool, value: Option<string>)

  // ── what is sent ───────────────────────────────────────────────────────────

  /** The entry of one row: as it reads, or with its recovered value, or none. */
  function EntryOf(row: Row, recovered: map<string, string>): Option<Entry> {
    if row.key == "" then None
    else if !row.hidden then Some(Entry(row.key, row.isPreview, row.locked, row.value))
    else if !row.isPreview && row.key in recovered then Some(Entry(row.key, false, row.locked, Some(recovered[row.key])))
    else None
  }

  function EntriesOf(rows: seq<Row>, recovered: map<string, string>, preview: bool): seq<Entry> {
    if rows == [] then []
    else
      var before, entry := EntriesOf(rows[..|rows| - 1], recovered, preview), EntryOf(rows[|rows| - 1], recovered);
      if entry.Some? && entry.value.isPreview == preview then before + [entry.value] else before
  }

  function Filled(rows: seq<Row>, recovered: map<string, string>): set<string> {
    set i | 0 <= i < |rows| && rows[i].hidden && !rows[i].isPreview && rows[i].key in recovered :: rows[i].key
  }

  /** The source's preview row of a key: the last one listed. */
  function PreviewRow(rows: seq<Row>, key: string): Option<Row> {
    if rows == [] then None
    else if rows[|rows| - 1].isPreview && rows[|rows| - 1].key == key then Some(rows[|rows| - 1])
    else PreviewRow(rows[..|rows| - 1], key)
  }

  /** The preview entry a production one needs, if any. */
  function PreviewFor(entry: Entry, preview: Option<Row>, filled: bool, ownSecret: bool): Option<Entry> {
    if preview.Some? && preview.value.hidden then Some(Entry(preview.value.key, true, true, None))
    else if filled && preview.None? && !ownSecret then Some(entry.(isPreview := true, locked := true))
    else None
  }

  predicate Sends(entries: seq<Entry>, key: string) {
    exists i :: 0 <= i < |entries| && entries[i].key == key
  }

  /** Every preview entry: the source's own, and those the production entries need. */
  function PreviewsWith(production: seq<Entry>, previews: seq<Entry>, rows: seq<Row>, filled: set<string>,
                        ownSecret: string -> bool): seq<Entry>
  {
    if production == [] then previews
    else
      var e := production[|production| - 1];
      var before := PreviewsWith(production[..|production| - 1], previews, rows, filled, ownSecret);
      if Sends(before, e.key) then before
      else
        var preview := PreviewFor(e, PreviewRow(rows, e.key), e.key in filled, ownSecret(e.key));
        if preview.Some? then before + [preview.value] else before
  }

  function Previews(rows: seq<Row>, recovered: map<string, string>, ownSecret: string -> bool): seq<Entry> {
    PreviewsWith(EntriesOf(rows, recovered, false), EntriesOf(rows, recovered, true), rows, Filled(rows, recovered), ownSecret)
  }

  method BuildEnvEntries(rows: seq<Row>, recovered: map<string, string>, ownSecret: string -> bool) returns (entries: seq<Entry>)
    ensures entries == Previews(rows, recovered, ownSecret) + EntriesOf(rows, recovered, false)
  {
    var previews: seq<Entry>, production: seq<Entry>, filled: set<string> := [], [], {};
    for i := 0 to |rows|
      invariant previews == EntriesOf(rows[..i], recovered, true) && production == EntriesOf(rows[..i], recovered, false)
      invariant filled == Filled(rows[..i], recovered)
    {
      assert rows[..i + 1][..i] == rows[..i];
      FilledSnoc(rows[..i], rows[i], recovered);
      assert rows[..i + 1] == rows[..i] + [rows[i]];
      var row := rows[i];
      if row.hidden && !row.isPreview && row.key in recovered {
        filled := filled + {row.key};
      }
      var entry := EntryOf(row, recovered);
      if entry.Some? {
        if entry.value.isPreview {
          previews := previews + [entry.value];
        } else {
          production := production + [entry.value];
        }
      }
    }
    assert rows[..|rows|] == rows;
    ghost var own := previews;
    for i := 0 to |production|
      invariant previews == PreviewsWith(production[..i], own, rows, filled, ownSecret)
    {
      assert production[..i + 1][..i] == production[..i];
      var e := production[i];
      if !Sends(previews, e.key) {
        var preview := PreviewFor(e, PreviewRow(rows, e.key), e.key in filled, ownSecret(e.key));
        if preview.Some? {
          previews := previews + [preview.value];
        }
      }
    }
    assert production[..|production|] == production;
    entries := previews + production;
  }

  lemma {:induction false} FilledSnoc(rows: seq<Row>, row: Row, recovered: map<string, string>)
    ensures Filled(rows + [row], recovered) ==
            Filled(rows, recovered) + if row.hidden && !row.isPreview && row.key in recovered then {row.key} else {}
  {
    var more := rows + [row];
    forall k ensures k in Filled(more, recovered) <==>
                     k in Filled(rows, recovered) || (row.hidden && !row.isPreview && row.key in recovered && k == row.key) {
      if k in Filled(rows, recovered) {
        var i :| 0 <= i < |rows| && rows[i].hidden && !rows[i].isPreview && rows[i].key in recovered && rows[i].key == k;
        assert more[i] == rows[i];
      }
      assert more[|rows|] == row;
    }
  }

  // ── what Coolify makes of it ───────────────────────────────────────────────

  datatype Cell = Cell(locked: bool, value: Option<string>)

  /** The target's rows. */
  datatype Target = Target(production: map<string, Cell>, preview: map<string, Cell>)

  /** What the creating hook does for a new production row that has no preview row. */
  datatype Hook = NoTwin | UnlockedTwin | TwinAsLocked

  function Receive(t: Target, e: Entry, hook: string -> Hook): Target {
    var cell := Cell(e.locked, e.value);
    if e.isPreview then t.(preview := t.preview[e.key := cell])
    else
      var more := t.(production := t.production[e.key := cell]);
      if e.key in t.production || e.key in t.preview || hook(e.key).NoTwin? then more
      else more.(preview := t.preview[e.key := Cell(hook(e.key).TwinAsLocked? && e.locked, e.value)])
  }

  /** The bulk in order, as far as it got. */
  function ReceiveAll(t: Target, entries: seq<Entry>, hook: string -> Hook): Target {
    if entries == [] then t else Receive(ReceiveAll(t, entries[..|entries| - 1], hook), entries[|entries| - 1], hook)
  }

  // ── no secret in an unlocked preview row ───────────────────────────────────

  /** A value the source itself shows, under that key. */
  ghost predicate Readable(rows: seq<Row>, key: string, value: Option<string>) {
    exists i :: 0 <= i < |rows| && rows[i].key == key && !rows[i].hidden && rows[i].value == value
  }

  /** Each preview row was there before, or is locked, or holds what the source shows. */
  ghost predicate Safe(t: Target, start: Target, rows: seq<Row>) {
    forall k :: k in t.preview ==>
      || (k in start.preview && t.preview[k] == start.preview[k])
      || t.preview[k].locked
      || Readable(rows, k, t.preview[k].value)
  }

  ghost predicate SafePreview(e: Entry, rows: seq<Row>) {
    e.isPreview && (e.locked || Readable(rows, e.key, e.value))
  }

  lemma {:induction false} EntryFrom(rows: seq<Row>, recovered: map<string, string>, preview: bool, e: Entry)
    requires e in EntriesOf(rows, recovered, preview)
    ensures exists i :: 0 <= i < |rows| && EntryOf(rows[i], recovered) == Some(e) && e.isPreview == preview
    decreases |rows|
  {
    var front := rows[..|rows| - 1];
    if e in EntriesOf(front, recovered, preview) {
      EntryFrom(front, recovered, preview, e);
      var i :| 0 <= i < |front| && EntryOf(front[i], recovered) == Some(e);
      assert rows[i] == front[i];
    }
  }

  lemma {:induction false} EntryTo(rows: seq<Row>, recovered: map<string, string>, i: nat)
    requires i < |rows| && EntryOf(rows[i], recovered).Some?
    ensures EntryOf(rows[i], recovered).value in EntriesOf(rows, recovered, EntryOf(rows[i], recovered).value.isPreview)
    decreases |rows|
  {
    if i < |rows| - 1 {
      EntryTo(rows[..|rows| - 1], recovered, i);
    }
  }

  lemma {:induction false} PreviewsKeep(production: seq<Entry>, previews: seq<Entry>, rows: seq<Row>, filled: set<string>,
                                        ownSecret: string -> bool)
    requires forall e :: e in previews ==> e.isPreview
    ensures var all := PreviewsWith(production, previews, rows, filled, ownSecret);
            previews <= all && forall e :: e in all ==> e.isPreview
    decreases |production|
  {
    if production != [] {
      PreviewsKeep(production[..|production| - 1], previews, rows, filled, ownSecret);
    }
  }

  lemma {:induction false} OfOneKind(rows: seq<Row>, recovered: map<string, string>, preview: bool)
    ensures forall e :: e in EntriesOf(rows, recovered, preview) ==> e.isPreview == preview
  {
    if rows != [] {
      OfOneKind(rows[..|rows| - 1], recovered, preview);
    }
  }

  /** This row is sent: it has a key, and its value is readable, or was recovered if it is a
      production row. */
  predicate IsSent(row: Row, recovered: map<string, string>) {
    row.key != "" && (!row.hidden || (!row.isPreview && row.key in recovered))
  }

  /** What it is sent with: its own lock, and the value that reads or was recovered. */
  ghost predicate SentAs(row: Row, recovered: map<string, string>, e: Entry) {
    && IsSent(row, recovered)
    && e.key == row.key && e.isPreview == row.isPreview && e.locked == row.locked
    && (!row.hidden ==> e.value == row.value)
    && (row.hidden ==> e.value == Some(recovered[row.key]))
  }

  ghost predicate FromRow(rows: seq<Row>, recovered: map<string, string>, e: Entry) {
    exists row :: row in rows && SentAs(row, recovered, e)
  }

  lemma {:induction false} EntryIsSentAs(row: Row, recovered: map<string, string>, e: Entry)
    ensures EntryOf(row, recovered) == Some(e) <==> SentAs(row, recovered, e)
  {
  }

  /** The bulk holds an entry for every keyed row that is readable or recovered, with its key, kind,
      lock and value, and of the production entries no others. */
  lemma {:induction false} EveryRowIsSent(rows: seq<Row>, recovered: map<string, string>, ownSecret: string -> bool, e: Entry)
    ensures var sent := Previews(rows, recovered, ownSecret) + EntriesOf(rows, recovered, false);
            && (FromRow(rows, recovered, e) ==> e in sent)
            && (e in sent && !e.isPreview ==> FromRow(rows, recovered, e))
  {
    OfOneKind(rows, recovered, false);
    if FromRow(rows, recovered, e) {
      var row :| row in rows && SentAs(row, recovered, e);
      var i :| 0 <= i < |rows| && rows[i] == row;
      EntryIsSentAs(row, recovered, e);
      EntryTo(rows, recovered, i);
    }
    OwnPreviewsAreSent(rows, recovered, ownSecret, e);
    if e in EntriesOf(rows, recovered, false) {
      EntryFrom(rows, recovered, false, e);
      var i :| 0 <= i < |rows| && EntryOf(rows[i], recovered) == Some(e);
      EntryIsSentAs(rows[i], recovered, e);
    }
  }

  lemma {:induction false} OwnPreviewsAreSent(rows: seq<Row>, recovered: map<string, string>, ownSecret: string -> bool, e: Entry)
    ensures e in EntriesOf(rows, recovered, true) ==> e in Previews(rows, recovered, ownSecret)
    ensures e in Previews(rows, recovered, ownSecret) ==> e.isPreview
  {
    var own := EntriesOf(rows, recovered, true);
    OfOneKind(rows, recovered, true);
    PreviewsKeep(EntriesOf(rows, recovered, false), own, rows, Filled(rows, recovered), ownSecret);
    if e in own {
      InPrefix(own, Previews(rows, recovered, ownSecret), e);
    }
  }

  lemma {:induction false} InPrefix(a: seq<Entry>, b: seq<Entry>, e: Entry)
    requires a <= b && e in a
    ensures e in b
  {
    var i :| 0 <= i < |a| && a[i] == e;
    assert b[i] == e;
  }

  lemma {:induction false} PreviewRowIn(rows: seq<Row>, key: string)
    ensures PreviewRow(rows, key).Some? ==>
              exists i :: 0 <= i < |rows| && rows[i] == PreviewRow(rows, key).value && rows[i].isPreview && rows[i].key == key
    decreases |rows|
  {
    if rows != [] && !(rows[|rows| - 1].isPreview && rows[|rows| - 1].key == key) {
      var front := rows[..|rows| - 1];
      PreviewRowIn(front, key);
      if PreviewRow(front, key).Some? {
        var i :| 0 <= i < |front| && front[i] == PreviewRow(front, key).value && front[i].isPreview && front[i].key == key;
        assert rows[i] == front[i];
      }
    }
  }

  /** Every preview entry sent is safe by itself. */
  lemma {:induction false} PreviewsAreSafe(production: seq<Entry>, previews: seq<Entry>, rows: seq<Row>, filled: set<string>,
                                           ownSecret: string -> bool)
    requires forall e :: e in previews ==> SafePreview(e, rows)
    ensures forall e :: e in PreviewsWith(production, previews, rows, filled, ownSecret) ==> SafePreview(e, rows)
    ensures previews <= PreviewsWith(production, previews, rows, filled, ownSecret)
    decreases |production|
  {
    if production != [] {
      PreviewsAreSafe(production[..|production| - 1], previews, rows, filled, ownSecret);
    }
  }

  /** A production entry that a twin could copy unlocked holds what the source shows: either
      a preview entry for its key is sent, or no twin is made, or its own row is readable. */
  ghost predicate Covered(e: Entry, previews: seq<Entry>, rows: seq<Row>, ownSecret: string -> bool) {
    Sends(previews, e.key) || ownSecret(e.key) || Readable(rows, e.key, e.value)
  }

  lemma {:induction false} SendsMore(before: seq<Entry>, after: seq<Entry>, key: string)
    requires before <= after && Sends(before, key)
    ensures Sends(after, key)
  {
    var i :| 0 <= i < |before| && before[i].key == key;
    assert after[i].key == key;
  }

  lemma {:induction false} ProductionIsCovered(production: seq<Entry>, n: nat, rows: seq<Row>, recovered: map<string, string>,
                                               ownSecret: string -> bool)
    requires n <= |production| && forall e :: e in production ==> e in EntriesOf(rows, recovered, false)
    ensures var previews := PreviewsWith(production[..n], EntriesOf(rows, recovered, true), rows, Filled(rows, recovered), ownSecret);
            && EntriesOf(rows, recovered, true) <= previews
            && forall k :: 0 <= k < n ==> Covered(production[k], previews, rows, ownSecret)
    decreases n
  {
    var own, filled := EntriesOf(rows, recovered, true), Filled(rows, recovered);
    if n > 0 {
      var e := production[n - 1];
      ProductionIsCovered(production, n - 1, rows, recovered, ownSecret);
      var before := PreviewsWith(production[..n - 1], own, rows, filled, ownSecret);
      OneIsCovered(e, before, rows, recovered, ownSecret);
      MoreIsCovered(production, n, before, PreviewFor(e, PreviewRow(rows, e.key), e.key in filled, ownSecret(e.key)), rows, ownSecret);
      PreviewsStep(production, n, own, rows, filled, ownSecret);
    }
  }

  lemma {:induction false} PreviewsStep(production: seq<Entry>, n: nat, own: seq<Entry>, rows: seq<Row>, filled: set<string>,
                                        ownSecret: string -> bool)
    requires 0 < n <= |production|
    ensures var e, before := production[n - 1], PreviewsWith(production[..n - 1], own, rows, filled, ownSecret);
            var preview := PreviewFor(e, PreviewRow(rows, e.key), e.key in filled, ownSecret(e.key));
            PreviewsWith(production[..n], own, rows, filled, ownSecret) ==
            if Sends(before, e.key) || preview.None? then before else before + [preview.value]
  {
    assert production[..n][..n - 1] == production[..n - 1];
  }

  lemma {:induction false} MoreIsCovered(production: seq<Entry>, n: nat, before: seq<Entry>, preview: Option<Entry>, rows: seq<Row>,
                                         ownSecret: string -> bool)
    requires 0 < n <= |production|
    requires forall k :: 0 <= k < n - 1 ==> Covered(production[k], before, rows, ownSecret)
    requires preview.Some? ==> preview.value.key == production[n - 1].key
    requires preview.None? ==> Covered(production[n - 1], before, rows, ownSecret)
    ensures var after := if Sends(before, production[n - 1].key) || preview.None? then before else before + [preview.value];
            before <= after && forall k :: 0 <= k < n ==> Covered(production[k], after, rows, ownSecret)
  {
    var after := if Sends(before, production[n - 1].key) || preview.None? then before else before + [preview.value];
    forall k | 0 <= k < n ensures Covered(production[k], after, rows, ownSecret) {
      if Sends(before, production[k].key) {
        SendsMore(before, after, production[k].key);
      } else if k == n - 1 && preview.Some? {
        assert after[|before|].key == production[k].key;
      }
    }
  }

  lemma {:induction false} OneIsCovered(e: Entry, before: seq<Entry>, rows: seq<Row>, recovered: map<string, string>,
                                        ownSecret: string -> bool)
    requires e in EntriesOf(rows, recovered, false) && EntriesOf(rows, recovered, true) <= before
    ensures var preview := PreviewFor(e, PreviewRow(rows, e.key), e.key in Filled(rows, recovered), ownSecret(e.key));
            && (preview.Some? ==> preview.value.key == e.key)
            && (preview.None? ==> Covered(e, before, rows, ownSecret))
  {
    EntryFrom(rows, recovered, false, e);
    var i :| 0 <= i < |rows| && EntryOf(rows[i], recovered) == Some(e);
    assert rows[i].hidden ==> e.key in Filled(rows, recovered);
    PreviewRowIn(rows, e.key);
    var preview := PreviewRow(rows, e.key);
    if preview.Some? && !preview.value.hidden {
      var k :| 0 <= k < |rows| && rows[k] == preview.value && rows[k].isPreview && rows[k].key == e.key;
      EntryTo(rows, recovered, k);
      var sent := EntryOf(rows[k], recovered).value;
      var m :| 0 <= m < |EntriesOf(rows, recovered, true)| && EntriesOf(rows, recovered, true)[m] == sent;
      assert before[m].key == e.key;
    }
  }

  /** What has arrived so far: safe, and a row for every preview entry received. */
  lemma {:induction false} PrefixIsSafe(start: Target, previews: seq<Entry>, production: seq<Entry>, n: nat, rows: seq<Row>,
                                        ownSecret: string -> bool, hook: string -> Hook)
    requires n <= |previews| + |production|
    requires forall e :: e in previews ==> SafePreview(e, rows)
    requires forall e :: e in production ==> !e.isPreview && Covered(e, previews, rows, ownSecret)
    requires forall k :: ownSecret(k) ==> hook(k).NoTwin?
    ensures var t := ReceiveAll(start, (previews + production)[..n], hook);
            Safe(t, start, rows) && forall i :: 0 <= i < n && i < |previews| ==> previews[i].key in t.preview
    decreases n
  {
    var all := previews + production;
    if n > 0 {
      PrefixIsSafe(start, previews, production, n - 1, rows, ownSecret, hook);
      assert all[..n][..n - 1] == all[..n - 1] && all[..n][n - 1] == all[n - 1];
      var t := ReceiveAll(start, all[..n - 1], hook);
      if n <= |previews| {
        assert all[n - 1] in previews && all[n - 1] == previews[n - 1];
        PreviewReceived(start, t, all[n - 1], rows, hook);
      } else {
        assert all[n - 1] in production && all[n - 1] == production[n - 1 - |previews|];
        ProductionReceived(start, t, all[n - 1], previews, rows, ownSecret, hook);
      }
    } else {
      assert all[..0] == [];
    }
  }

  lemma {:induction false} PreviewReceived(start: Target, t: Target, e: Entry, rows: seq<Row>, hook: string -> Hook)
    requires Safe(t, start, rows) && SafePreview(e, rows)
    ensures Safe(Receive(t, e, hook), start, rows) && t.preview.Keys + {e.key} == Receive(t, e, hook).preview.Keys
  {
  }

  lemma {:induction false} ProductionReceived(start: Target, t: Target, e: Entry, previews: seq<Entry>, rows: seq<Row>,
                                              ownSecret: string -> bool, hook: string -> Hook)
    requires Safe(t, start, rows) && !e.isPreview && Covered(e, previews, rows, ownSecret)
    requires ownSecret(e.key) ==> hook(e.key).NoTwin?
    requires forall i :: 0 <= i < |previews| ==> previews[i].key in t.preview
    ensures Safe(Receive(t, e, hook), start, rows) && t.preview.Keys <= Receive(t, e, hook).preview.Keys
  {
    if Sends(previews, e.key) {
      var i :| 0 <= i < |previews| && previews[i].key == e.key;
      assert e.key in t.preview;
    }
  }

  /** At every prefix of the bulk, whatever the target's rows were and whatever the hook does,
      each unlocked preview row was there before or holds a value the source shows under that
      key: no recovered secret is ever in one. */
  lemma {:induction false} NoSecretUnlocked(start: Target, rows: seq<Row>, recovered: map<string, string>, ownSecret: string -> bool,
                                            hook: string -> Hook, n: nat)
    requires forall k :: ownSecret(k) ==> hook(k).NoTwin?
    requires n <= |Previews(rows, recovered, ownSecret)| + |EntriesOf(rows, recovered, false)|
    ensures Safe(ReceiveAll(start, (Previews(rows, recovered, ownSecret) + EntriesOf(rows, recovered, false))[..n], hook), start, rows)
  {
    var own, production := EntriesOf(rows, recovered, true), EntriesOf(rows, recovered, false);
    forall e | e in own ensures SafePreview(e, rows) {
      EntryFrom(rows, recovered, true, e);
    }
    PreviewsAreSafe(production, own, rows, Filled(rows, recovered), ownSecret);
    ProductionIsCovered(production, |production|, rows, recovered, ownSecret);
    assert production[..|production|] == production;
    forall e | e in production ensures !e.isPreview && Covered(e, Previews(rows, recovered, ownSecret), rows, ownSecret) {
      EntryFrom(rows, recovered, false, e);
      var k :| 0 <= k < |production| && production[k] == e;
    }
    PrefixIsSafe(start, Previews(rows, recovered, ownSecret), production, n, rows, ownSecret, hook);
  }

  // ── a locked preview stays blank ───────────────────────────────────────────

  /** The source has a preview row of the key, and shows no value of any. */
  ghost predicate PreviewLocked(rows: seq<Row>, key: string) {
    PreviewRow(rows, key).Some? && forall i :: 0 <= i < |rows| && rows[i].isPreview && rows[i].key == key ==> rows[i].hidden
  }

  /** Every entry for that key's preview row is a blank, locked one. */
  ghost predicate Blank(previews: seq<Entry>, key: string) {
    forall e :: e in previews && e.key == key ==> e == Entry(key, true, true, None)
  }

  lemma {:induction false} NoOwnPreview(rows: seq<Row>, recovered: map<string, string>, key: string)
    requires PreviewLocked(rows, key)
    ensures forall e :: e in EntriesOf(rows, recovered, true) ==> e.key != key
  {
    forall e | e in EntriesOf(rows, recovered, true) ensures e.key != key {
      EntryFrom(rows, recovered, true, e);
    }
  }

  lemma {:induction false} BlankPreviews(production: seq<Entry>, n: nat, rows: seq<Row>, recovered: map<string, string>,
                                         ownSecret: string -> bool, key: string)
    requires n <= |production| && PreviewLocked(rows, key)
    ensures var previews := PreviewsWith(production[..n], EntriesOf(rows, recovered, true), rows, Filled(rows, recovered), ownSecret);
            Blank(previews, key) && forall k :: 0 <= k < n && production[k].key == key ==> Sends(previews, key)
    decreases n
  {
    var own, filled := EntriesOf(rows, recovered, true), Filled(rows, recovered);
    PreviewRowIn(rows, key);
    if n == 0 {
      NoOwnPreview(rows, recovered, key);
    } else {
      BlankPreviews(production, n - 1, rows, recovered, ownSecret, key);
      PreviewsStep(production, n, own, rows, filled, ownSecret);
      var before := PreviewsWith(production[..n - 1], own, rows, filled, ownSecret);
      var after := PreviewsWith(production[..n], own, rows, filled, ownSecret);
      PreviewRowIn(rows, production[n - 1].key);
      if Sends(before, key) {
        SendsMore(before, after, key);
      } else if production[n - 1].key == key {
        assert after[|before|].key == key;
      }
    }
  }

  /** What that key's preview row may be: what it was before, or blank and locked. */
  predicate BlankOr(t: Target, start: Target, key: string) {
    key in t.preview ==> t.preview[key] == Cell(true, None) || (key in start.preview && t.preview[key] == start.preview[key])
  }

  predicate IsBlank(t: Target, key: string) {
    key in t.preview && t.preview[key] == Cell(true, None)
  }

  /** While the preview entries arrive. */
  lemma {:induction false} BlankAsSent(start: Target, previews: seq<Entry>, n: nat, key: string, hook: string -> Hook)
    requires n <= |previews| && Blank(previews, key) && forall e :: e in previews ==> e.isPreview
    ensures var t := ReceiveAll(start, previews[..n], hook);
            BlankOr(t, start, key) && (Sends(previews[..n], key) ==> IsBlank(t, key))
    decreases n
  {
    if n > 0 {
      BlankAsSent(start, previews, n - 1, key, hook);
      assert previews[..n][..n - 1] == previews[..n - 1] && previews[n - 1] in previews;
      if Sends(previews[..n], key) && previews[n - 1].key != key {
        var i :| 0 <= i < n && previews[..n][i].key == key;
        assert previews[..n - 1][i].key == key;
      }
    }
  }

  /** And while the production entries do, which find it there. */
  lemma {:induction false} BlankAfter(t: Target, start: Target, production: seq<Entry>, n: nat, key: string, hook: string -> Hook)
    requires n <= |production| && BlankOr(t, start, key) && forall e :: e in production ==> !e.isPreview
    requires Sends(production, key) ==> IsBlank(t, key)
    ensures var u := ReceiveAll(t, production[..n], hook);
            BlankOr(u, start, key) && (IsBlank(t, key) ==> IsBlank(u, key))
    decreases n
  {
    if n > 0 {
      BlankAfter(t, start, production, n - 1, key, hook);
      assert production[..n][..n - 1] == production[..n - 1] && production[n - 1] in production;
      if production[n - 1].key == key {
        assert Sends(production, key);
      }
    }
  }

  lemma {:induction false} ReceiveConcat(t: Target, a: seq<Entry>, b: seq<Entry>, hook: string -> Hook)
    ensures ReceiveAll(t, a + b, hook) == ReceiveAll(ReceiveAll(t, a, hook), b, hook)
    decreases |b|
  {
    if b == [] {
      assert a + b == a;
    } else {
      var front, last := b[..|b| - 1], b[|b| - 1];
      assert a + b == (a + front) + [last];
      ReceiveConcat(t, a, front, hook);
      assert (a + b)[..|a + b| - 1] == a + front;
    }
  }

  /** Where the source's preview row is locked, the target's is never anything but what it was
      before or blank and locked, and the latter before any production row of that key
      arrives: no pull-request deployment is handed the production value. */
  lemma {:induction false} LockedPreviewStaysBlank(start: Target, rows: seq<Row>, recovered: map<string, string>,
                                                   ownSecret: string -> bool, hook: string -> Hook, n: nat, key: string)
    requires PreviewLocked(rows, key)
    requires n <= |Previews(rows, recovered, ownSecret)| + |EntriesOf(rows, recovered, false)|
    ensures var previews, production := Previews(rows, recovered, ownSecret), EntriesOf(rows, recovered, false);
            var t := ReceiveAll(start, (previews + production)[..n], hook);
            BlankOr(t, start, key) && (n >= |previews| && Sends(production, key) ==> IsBlank(t, key))
  {
    var previews, production := Previews(rows, recovered, ownSecret), EntriesOf(rows, recovered, false);
    EntriesArePreviews(rows, recovered, ownSecret);
    BlankPreviews(production, |production|, rows, recovered, ownSecret, key);
    assert production[..|production|] == production && previews[..|previews|] == previews;
    if n <= |previews| {
      BlankAsSent(start, previews, n, key, hook);
      assert (previews + production)[..n] == previews[..n];
      BlankAsSent(start, previews, |previews|, key, hook);
      assert n == |previews| ==> previews[..n] == previews;
    } else {
      BlankAsSent(start, previews, |previews|, key, hook);
      var m := n - |previews|;
      BlankAfter(ReceiveAll(start, previews, hook), start, production, m, key, hook);
      ReceiveConcat(start, previews, production[..m], hook);
      assert (previews + production)[..n] == previews + production[..m];
    }
  }

  lemma {:induction false} EntriesArePreviews(rows: seq<Row>, recovered: map<string, string>, ownSecret: string -> bool)
    ensures forall e :: e in Previews(rows, recovered, ownSecret) ==> e.isPreview
    ensures forall e :: e in EntriesOf(rows, recovered, false) ==> !e.isPreview
  {
    var own, production := EntriesOf(rows, recovered, true), EntriesOf(rows, recovered, false);
    forall e | e in own ensures SafePreview(e, rows) {
      EntryFrom(rows, recovered, true, e);
    }
    PreviewsAreSafe(production, own, rows, Filled(rows, recovered), ownSecret);
    forall e | e in production ensures !e.isPreview {
      EntryFrom(rows, recovered, false, e);
    }
  }

  // ── which preview entries are added ────────────────────────────────────────

  /** The source's preview row of a key is the last one listed. */
  ghost predicate LastPreview(rows: seq<Row>, key: string, row: Row) {
    exists i :: LastPreviewAt(rows, key, row, i)
  }

  ghost predicate LastPreviewAt(rows: seq<Row>, key: string, row: Row, i: int) {
    && 0 <= i < |rows| && rows[i] == row && row.isPreview && row.key == key
    && forall j :: i < j < |rows| ==> !(rows[j].isPreview && rows[j].key == key)
  }

  lemma {:induction false} PreviewRowIsLast(rows: seq<Row>, key: string)
    ensures PreviewRow(rows, key).Some? ==> LastPreview(rows, key, PreviewRow(rows, key).value)
    ensures PreviewRow(rows, key).None? ==> forall row :: row in rows && row.isPreview ==> row.key != key
    decreases |rows|
  {
    if rows != [] {
      var front, last := rows[..|rows| - 1], rows[|rows| - 1];
      if last.isPreview && last.key == key {
        assert LastPreviewAt(rows, key, last, |rows| - 1);
      } else {
        PreviewRowIsLast(front, key);
        assert rows == front + [last];
        if PreviewRow(front, key).Some? {
          var row := PreviewRow(front, key).value;
          var i :| LastPreviewAt(front, key, row, i);
          assert LastPreviewAt(rows, key, row, i);
        }
      }
    }
  }

  /** Blank and locked, where the source's preview row is withheld. */
  ghost predicate BlankFor(e: Entry, rows: seq<Row>) {
    e == Entry(e.key, true, true, None) && exists row :: LastPreview(rows, e.key, row) && row.hidden
  }

  /** A locked copy, where the value was recovered, the source has no preview row, and Coolify would
      make a twin. */
  ghost predicate TwinFor(e: Entry, production: seq<Entry>, rows: seq<Row>, recovered: map<string, string>, ownSecret: string -> bool) {
    && e.isPreview && e.locked && !ownSecret(e.key)
    && (exists own :: own in production && own.key == e.key && own.value == e.value)
    && (exists row :: row in rows && !row.isPreview && row.hidden && row.key == e.key && e.key in recovered)
    && (forall row :: row in rows && row.isPreview ==> row.key != e.key)
  }

  /** What is sent beside the source's own preview rows, and only with a production row of its key. */
  ghost predicate Added(e: Entry, production: seq<Entry>, rows: seq<Row>, recovered: map<string, string>, ownSecret: string -> bool) {
    Sends(production, e.key) && (BlankFor(e, rows) || TwinFor(e, production, rows, recovered, ownSecret))
  }

  lemma {:induction false} OneAdded(e: Entry, production: seq<Entry>, rows: seq<Row>, recovered: map<string, string>,
                                    ownSecret: string -> bool)
    requires e in production && !e.isPreview
    ensures var preview := PreviewFor(e, PreviewRow(rows, e.key), e.key in Filled(rows, recovered), ownSecret(e.key));
            preview.Some? ==> Added(preview.value, production, rows, recovered, ownSecret)
  {
    PreviewRowIsLast(rows, e.key);
    var k :| 0 <= k < |production| && production[k] == e;
    if e.key in Filled(rows, recovered) {
      var i :| 0 <= i < |rows| && rows[i].hidden && !rows[i].isPreview && rows[i].key in recovered && rows[i].key == e.key;
      assert rows[i] in rows;
    }
    if PreviewRow(rows, e.key).Some? {
      var row := PreviewRow(rows, e.key).value;
      assert LastPreview(rows, e.key, row) && row.key == e.key;
    }
  }

  lemma {:induction false} AllAdded(production: seq<Entry>, n: nat, rows: seq<Row>, recovered: map<string, string>,
                                    ownSecret: string -> bool)
    requires n <= |production| && forall e :: e in production ==> !e.isPreview
    ensures var own := EntriesOf(rows, recovered, true);
            forall e :: e in PreviewsWith(production[..n], own, rows, Filled(rows, recovered), ownSecret) ==>
              e in own || Added(e, production, rows, recovered, ownSecret)
    decreases n
  {
    var own, filled := EntriesOf(rows, recovered, true), Filled(rows, recovered);
    if n > 0 {
      AllAdded(production, n - 1, rows, recovered, ownSecret);
      PreviewsStep(production, n, own, rows, filled, ownSecret);
      OneAdded(production[n - 1], production, rows, recovered, ownSecret);
    }
  }

  lemma {:induction false} OwnFromRow(rows: seq<Row>, recovered: map<string, string>, e: Entry)
    requires e in EntriesOf(rows, recovered, true)
    ensures FromRow(rows, recovered, e) && e.isPreview
  {
    EntryFrom(rows, recovered, true, e);
    var i :| 0 <= i < |rows| && EntryOf(rows[i], recovered) == Some(e);
    EntryIsSentAs(rows[i], recovered, e);
  }

  /** No other preview entries are sent. */
  lemma {:induction false} OnlyNeededPreviews(rows: seq<Row>, recovered: map<string, string>, ownSecret: string -> bool, e: Entry)
    requires e in Previews(rows, recovered, ownSecret)
    ensures (FromRow(rows, recovered, e) && e.isPreview)
            || Added(e, EntriesOf(rows, recovered, false), rows, recovered, ownSecret)
  {
    var production := EntriesOf(rows, recovered, false);
    OfOneKind(rows, recovered, false);
    AllAdded(production, |production|, rows, recovered, ownSecret);
    assert production[..|production|] == production;
    if e in EntriesOf(rows, recovered, true) {
      OwnFromRow(rows, recovered, e);
    }
  }

  // ── what arrives ───────────────────────────────────────────────────────────

  lemma {:induction false} PreviewsLeaveProduction(t: Target, previews: seq<Entry>, hook: string -> Hook)
    requires forall e :: e in previews ==> e.isPreview
    ensures ReceiveAll(t, previews, hook).production == t.production
    decreases |previews|
  {
    if previews != [] {
      PreviewsLeaveProduction(t, previews[..|previews| - 1], hook);
    }
  }

  /** No production row of that key is sent. */
  ghost predicate NoneSent(rows: seq<Row>, recovered: map<string, string>, key: string) {
    forall i :: 0 <= i < |rows| ==> NotSent(rows[i], recovered, key)
  }

  predicate NotSent(row: Row, recovered: map<string, string>, key: string) {
    row.isPreview || row.key != key || !IsSent(row, recovered)
  }

  lemma {:induction false} EntriesSnoc(rows: seq<Row>, row: Row, recovered: map<string, string>)
    ensures EntriesOf(rows + [row], recovered, false) ==
            EntriesOf(rows, recovered, false)
            + if EntryOf(row, recovered).Some? && !EntryOf(row, recovered).value.isPreview then [EntryOf(row, recovered).value] else []
  {
    assert (rows + [row])[..|rows|] == rows;
  }

  /** What the production rows have left of a key's row. */
  function CellAfter(t: Target, rows: seq<Row>, recovered: map<string, string>, hook: string -> Hook, key: string): Option<Cell> {
    var u := ReceiveAll(t, EntriesOf(rows, recovered, false), hook);
    if key in u.production then Some(u.production[key]) else None
  }

  lemma {:induction false} RowReceived(t: Target, rows: seq<Row>, row: Row, recovered: map<string, string>, hook: string -> Hook,
                                       key: string)
    ensures CellAfter(t, rows + [row], recovered, hook, key) ==
            if NotSent(row, recovered, key) then CellAfter(t, rows, recovered, hook, key)
            else Some(Cell(row.locked, if row.hidden then Some(recovered[key]) else row.value))
  {
    EntriesSnoc(rows, row, recovered);
    var before, entry := EntriesOf(rows, recovered, false), EntryOf(row, recovered);
    if entry.Some? && !entry.value.isPreview {
      assert (before + [entry.value])[..|before|] == before;
    }
  }

  lemma {:induction false} NothingReceived(t: Target, rows: seq<Row>, after: seq<Row>, recovered: map<string, string>,
                                           hook: string -> Hook, key: string)
    requires NoneSent(after, recovered, key)
    ensures CellAfter(t, rows + after, recovered, hook, key) == CellAfter(t, rows, recovered, hook, key)
    decreases |after|
  {
    if after == [] {
      assert rows + after == rows;
    } else {
      var front, last := after[..|after| - 1], after[|after| - 1];
      NothingReceived(t, rows, front, recovered, hook, key);
      RowReceived(t, rows + front, last, recovered, hook, key);
      assert rows + after == (rows + front) + [last];
    }
  }

  lemma {:induction false} CellFromBulk(start: Target, rows: seq<Row>, recovered: map<string, string>, ownSecret: string -> bool,
                                        hook: string -> Hook, key: string)
    ensures var t := ReceiveAll(start, Previews(rows, recovered, ownSecret) + EntriesOf(rows, recovered, false), hook);
            var u := ReceiveAll(start, Previews(rows, recovered, ownSecret), hook);
            && u.production == start.production
            && CellAfter(u, rows, recovered, hook, key) == if key in t.production then Some(t.production[key]) else None
  {
    var previews := Previews(rows, recovered, ownSecret);
    EntriesArePreviews(rows, recovered, ownSecret);
    ReceiveConcat(start, previews, EntriesOf(rows, recovered, false), hook);
    PreviewsLeaveProduction(start, previews, hook);
  }

  /** After the whole bulk the production row of a key holds what the last row of it that was sent
      holds: its lock, and the value that reads or was recovered. */
  lemma {:induction false} ProductionArrives(start: Target, before: seq<Row>, row: Row, after: seq<Row>, recovered: map<string, string>,
                                             ownSecret: string -> bool, hook: string -> Hook)
    requires row.key != "" && !row.isPreview && (row.hidden ==> row.key in recovered) && NoneSent(after, recovered, row.key)
    ensures var rows := before + [row] + after;
            var t := ReceiveAll(start, Previews(rows, recovered, ownSecret) + EntriesOf(rows, recovered, false), hook);
            && row.key in t.production && t.production[row.key].locked == row.locked
            && t.production[row.key].value == if row.hidden then Some(recovered[row.key]) else row.value
  {
    var rows := before + [row] + after;
    var u := ReceiveAll(start, Previews(rows, recovered, ownSecret), hook);
    CellFromBulk(start, rows, recovered, ownSecret, hook, row.key);
    NothingReceived(u, before + [row], after, recovered, hook, row.key);
    RowReceived(u, before, row, recovered, hook, row.key);
  }

  /** And one that was not sent at all is as it was. */
  lemma {:induction false} OthersStay(start: Target, rows: seq<Row>, recovered: map<string, string>, ownSecret: string -> bool,
                                      hook: string -> Hook, key: string)
    requires NoneSent(rows, recovered, key)
    ensures var t := ReceiveAll(start, Previews(rows, recovered, ownSecret) + EntriesOf(rows, recovered, false), hook);
            (key in t.production <==> key in start.production) && (key in t.production ==> t.production[key] == start.production[key])
  {
    var u := ReceiveAll(start, Previews(rows, recovered, ownSecret), hook);
    CellFromBulk(start, rows, recovered, ownSecret, hook, key);
    NothingReceived(u, [], rows, recovered, hook, key);
    assert [] + rows == rows;
  }
}
