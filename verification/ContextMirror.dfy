/** A channel's shared context in memory and its mirror in the database, written in any order. */
module ContextMirror {
  import opened Prelude
  import opened Text

  const I32_MAX := 0x7FFF_FFFF
  const U32_MAX := 0xFFFF_FFFF
  const MAX_CONTEXT_KEY_BYTES := 200
  const MAX_CONTEXT_KEYS := 10_000
  const MAX_KEY_BYTES := 120

  /** A JSON value, known by its identity and its sizes on the wire and in the table. */
  datatype Value = Value(id: nat, jsonBytes: nat, columnBytes: nat)

  datatype Entry = Entry(key: string, value: Value, version: nat, updatedBy: string)

  type Entries = map<string, Entry>

  // ---- the table ---------------------------------------------------------------------------------

  /** `save_context`: an upsert that only a higher version gets through. */
  function Save(rows: Entries, e: Entry): Entries {
    if e.version > I32_MAX then rows
    else if e.key in rows && rows[e.key].version >= e.version then rows
    else rows[e.key := e]
  }

  /** The rows of one channel. */
  class ContextTable {
    var rows: Entries

    constructor ()
      ensures rows == map[]
    {
      rows := map[];
    }

    method SaveContext(e: Entry) returns (ok: bool)
      modifies this
      ensures rows == Save(old(rows), e)
      ensures ok <==> e.version <= I32_MAX
    {
      if e.version > I32_MAX {
        return false;
      }
      if e.key !in rows || rows[e.key].version < e.version {
        rows := rows[e.key := e];
      }
      return true;
    }
  }

  function SaveAll(rows: Entries, writes: seq<Entry>): Entries {
    if writes == [] then rows
    else Save(SaveAll(rows, writes[..|writes| - 1]), writes[|writes| - 1])
  }

  ghost predicate Keyed(rows: Entries) { forall k | k in rows :: rows[k].key == k }

  /** `e` is the row `k` started with, or a write to `k` that the table can hold. */
  ghost predicate Offered(rows: Entries, writes: seq<Entry>, k: string, e: Entry) {
    || (k in rows && rows[k] == e)
    || (e in writes && e.key == k && e.version <= I32_MAX)
  }

  /** `row` has the highest version on offer, and it is the row of the start unless a write is strictly higher. */
  ghost predicate IsTop(rows: Entries, writes: seq<Entry>, k: string, row: Entry) {
    && Offered(rows, writes, k, row)
    && (forall e | Offered(rows, writes, k, e) :: e.version <= row.version)
    && (k in rows && rows[k].version == row.version ==> rows[k] == row)
  }

  /** Whatever subset of the writes arrives, in whatever order: the highest version stands. */
  lemma {:induction false} HighestVersionStands(rows: Entries, writes: seq<Entry>, k: string)
    ensures k in SaveAll(rows, writes) <==> exists e :: Offered(rows, writes, k, e)
    ensures k in SaveAll(rows, writes) ==> IsTop(rows, writes, k, SaveAll(rows, writes)[k])
  {
    if writes == [] {
      assert k in rows ==> Offered(rows, writes, k, rows[k]);
    } else {
      var before, last := writes[..|writes| - 1], writes[|writes| - 1];
      HighestVersionStands(rows, before, k);
      assert forall e :: e in writes <==> e in before || e == last;
      StandsAfterOne(rows, before, last, writes, k);
    }
  }

  lemma StandsAfterOne(rows: Entries, before: seq<Entry>, last: Entry, writes: seq<Entry>, k: string)
    requires forall e :: e in writes <==> e in before || e == last
    requires k in SaveAll(rows, before) <==> exists e :: Offered(rows, before, k, e)
    requires k in SaveAll(rows, before) ==> IsTop(rows, before, k, SaveAll(rows, before)[k])
    ensures var after := Save(SaveAll(rows, before), last);
      && (k in after <==> exists e :: Offered(rows, writes, k, e))
      && (k in after ==> IsTop(rows, writes, k, after[k]))
  {
    hide SaveAll;
    var was, after := SaveAll(rows, before), Save(SaveAll(rows, before), last);
    assert forall e :: Offered(rows, writes, k, e) <==>
        Offered(rows, before, k, e) || (e == last && last.key == k && last.version <= I32_MAX);
    assert k in rows ==> Offered(rows, before, k, rows[k]);
    assert k in was ==> Offered(rows, writes, k, was[k]);
    assert k in after ==> Offered(rows, writes, k, after[k]);
  }

  /** No two different entries compete for one version of `k`. */
  ghost predicate Agree(rows: Entries, writes: seq<Entry>, k: string) {
    forall e, f | Offered(rows, writes, k, e) && Offered(rows, writes, k, f) && e.version == f.version :: e == f
  }

  /** The same writes in another order, or repeated, leave the same row. */
  lemma OrderIrrelevant(rows: Entries, writes: seq<Entry>, others: seq<Entry>, k: string)
    requires forall e :: e in writes <==> e in others
    requires Agree(rows, writes, k)
    ensures k in SaveAll(rows, writes) <==> k in SaveAll(rows, others)
    ensures k in SaveAll(rows, writes) ==> SaveAll(rows, writes)[k] == SaveAll(rows, others)[k]
  {
    HighestVersionStands(rows, writes, k);
    HighestVersionStands(rows, others, k);
    hide SaveAll;
    assert forall e :: Offered(rows, writes, k, e) <==> Offered(rows, others, k, e);
  }

  // ---- memory --------------------------------------------------------------------------------------

  datatype SetError = KeyRequired | KeyTooLong | ValueTooLarge | TooManyKeys

  datatype Request = Request(key: string, value: Value, updatedBy: string)

  /** `truncate_bytes`: the longest prefix of whole characters within the limit. */
  function Truncated(s: string, limit: nat): (r: string)
    ensures r <= s && Utf8Len(r) <= limit
    ensures |r| < |s| ==> Utf8Len(s[..|r| + 1]) > limit
  {
    if Utf8Len(s) <= limit then s
    else
      var r := Truncated(s[..|s| - 1], limit);
      assert |r| == |s| - 1 ==> s[..|r| + 1] == s;
      assert |r| < |s| - 1 ==> s[..|s| - 1][..|r| + 1] == s[..|r| + 1];
      r
  }

  /** The version a write to `key` gets. */
  function NextVersion(entries: Entries, key: string): nat {
    if key in entries then Min(entries[key].version + 1, U32_MAX) else 1
  }

  /** `set_context_internal`: the entry a request stores, or why it is refused. */
  function Setting(entries: Entries, r: Request, limit: nat): Result<Entry, SetError> {
    var key := Trim(r.key);
    if key == "" then Err(KeyRequired)
    else if Utf8Len(key) > MAX_CONTEXT_KEY_BYTES then Err(KeyTooLong)
    else if r.value.jsonBytes > limit then Err(ValueTooLarge)
    else if key !in entries && |entries| >= MAX_CONTEXT_KEYS then Err(TooManyKeys)
    else Ok(Entry(key, r.value, NextVersion(entries, key), Truncated(r.updatedBy, MAX_KEY_BYTES)))
  }

  /** Which writes are refused, the first reason that holds being given, and what an accepted one stores. */
  lemma SettingMeans(entries: Entries, r: Request, limit: nat)
    ensures var key, s := Trim(r.key), Setting(entries, r, limit);
      && (s == Err(KeyRequired) <==> key == "")
      && (s == Err(KeyTooLong) <==> key != "" && Utf8Len(key) > 200)
      && (s == Err(ValueTooLarge) <==> key != "" && Utf8Len(key) <= 200 && r.value.jsonBytes > limit)
      && (s == Err(TooManyKeys) <==>
            && key != "" && Utf8Len(key) <= 200 && r.value.jsonBytes <= limit
            && key !in entries && |entries| >= 10_000)
      && (s.Ok? ==>
            && s.value.key == key && s.value.value == r.value
            && s.value.updatedBy <= r.updatedBy && Utf8Len(s.value.updatedBy) <= 120
            && (Utf8Len(r.updatedBy) <= 120 ==> s.value.updatedBy == r.updatedBy))
  {
    hide Trim;
  }

  predicate Restorable(e: Entry, limit: nat) {
    e.value.columnBytes <= limit && e.key != "" && Utf8Len(e.key) <= MAX_CONTEXT_KEY_BYTES
  }

  /** `load_context` then `restore_context_entry`, row by row, into an empty context. */
  function Loaded(rows: seq<Entry>, limit: nat): Entries {
    if rows == [] then map[]
    else
      var before, e := Loaded(rows[..|rows| - 1], limit), rows[|rows| - 1];
      if !Restorable(e, limit) || (e.key !in before && |before| >= MAX_CONTEXT_KEYS) then before
      else before[e.key := e]
  }

  function CountRestorable(rows: seq<Entry>, limit: nat): nat {
    if rows == [] then 0
    else CountRestorable(rows[..|rows| - 1], limit) + if Restorable(rows[|rows| - 1], limit) then 1 else 0
  }

  ghost predicate DistinctRows(rows: seq<Entry>) {
    forall i, j | 0 <= i < j < |rows| :: rows[i].key != rows[j].key
  }

  lemma {:induction false} LoadedKeys(rows: seq<Entry>, limit: nat)
    requires DistinctRows(rows)
    ensures forall k | k in Loaded(rows, limit) :: Loaded(rows, limit)[k] in rows && Loaded(rows, limit)[k].key == k
    ensures |Loaded(rows, limit)| == Min(CountRestorable(rows, limit), MAX_CONTEXT_KEYS)
  {
    hide Restorable;
    if rows != [] {
      var n := |rows| - 1;
      LoadedKeys(rows[..n], limit);
      var before, e := Loaded(rows[..n], limit), rows[n];
      assert e.key !in before;
      assert before[e.key := e].Keys == before.Keys + {e.key};
      assert |before[e.key := e].Keys| == |before.Keys| + 1;
    }
  }

  /** A row comes back exactly when it is restorable and fewer than the maximum of such rows precede it. */
  lemma {:induction false} RestoredIff(rows: seq<Entry>, limit: nat, i: nat)
    requires DistinctRows(rows) && i < |rows|
    ensures rows[i].key in Loaded(rows, limit) <==>
        && rows[i].value.columnBytes <= limit && rows[i].key != "" && Utf8Len(rows[i].key) <= 200
        && CountRestorable(rows[..i], limit) < 10_000
    ensures rows[i].key in Loaded(rows, limit) ==> Loaded(rows, limit)[rows[i].key] == rows[i]
  {
    hide Loaded, CountRestorable, Utf8Len;
    var n := |rows| - 1;
    LoadedStep(rows, limit);
    LoadedKeys(rows[..n], limit);
    if i < n {
      RestoredIff(rows[..n], limit, i);
      assert rows[..n][..i] == rows[..i];
    }
  }

  lemma LoadedStep(rows: seq<Entry>, limit: nat)
    requires DistinctRows(rows) && rows != []
    ensures var before, e := Loaded(rows[..|rows| - 1], limit), rows[|rows| - 1];
      && e.key !in before
      && Loaded(rows, limit) ==
          if Restorable(e, limit) && |before| < MAX_CONTEXT_KEYS then before[e.key := e] else before
  {
    hide Restorable;
    LoadedKeys(rows[..|rows| - 1], limit);
  }

  /** The context of one channel, changed in place; `sent` lists the writes handed to the mirror. */
  class Context {
    var entries: Entries
    const limit: nat
    ghost var sent: seq<Entry>

    constructor (limit: nat)
      ensures entries == map[] && sent == [] && this.limit == limit
    {
      entries, sent := map[], [];
      this.limit := limit;
    }

    method Set(r: Request) returns (answer: Result<Entry, SetError>)
      modifies `entries, `sent
      ensures answer == Setting(old(entries), r, limit)
      ensures Memory(entries, sent) == Receive(Memory(old(entries), old(sent)), r, limit)
    {
      var key := Trim(r.key);
      if key == "" {
        return Err(KeyRequired);
      }
      if Utf8Len(key) > MAX_CONTEXT_KEY_BYTES {
        return Err(KeyTooLong);
      }
      if r.value.jsonBytes > limit {
        return Err(ValueTooLarge);
      }
      if key !in entries && |entries| >= MAX_CONTEXT_KEYS {
        return Err(TooManyKeys);
      }
      var version := 1;
      if key in entries {
        version := Min(entries[key].version + 1, U32_MAX);
      }
      var e := Entry(key, r.value, version, Truncated(r.updatedBy, MAX_KEY_BYTES));
      entries := entries[key := e];
      sent := sent + [e];
      return Ok(e);
    }

    method RestoreEntry(e: Entry) returns (ok: bool)
      modifies `entries
      ensures ok <==>
          && e.key != "" && Utf8Len(e.key) <= MAX_CONTEXT_KEY_BYTES
          && (e.key in old(entries) || |old(entries)| < MAX_CONTEXT_KEYS)
      ensures entries == if ok then old(entries)[e.key := e] else old(entries)
    {
      if e.key == "" || Utf8Len(e.key) > MAX_CONTEXT_KEY_BYTES {
        return false;
      }
      if e.key !in entries && |entries| >= MAX_CONTEXT_KEYS {
        return false;
      }
      entries := entries[e.key := e];
      return true;
    }

    /** Restores the rows the query returns: those whose column is small enough, in key order. */
    method Load(rows: seq<Entry>) returns (restored: nat)
      requires entries == map[] && sent == []
      modifies `entries
      ensures entries == Loaded(rows, limit)
      ensures DistinctRows(rows) ==> restored == |entries|
    {
      restored := 0;
      for i := 0 to |rows|
        invariant entries == Loaded(rows[..i], limit)
        invariant DistinctRows(rows) ==> restored == |entries|
      {
        hide Utf8Len;
        assert rows[..i + 1][..i] == rows[..i];
        if DistinctRows(rows) {
          FreshKey(rows, limit, i);
        }
        if rows[i].value.columnBytes <= limit {
          ghost var before := entries;
          var ok := RestoreEntry(rows[i]);
          if ok {
            GrowsByOne(before, rows[i]);
            restored := restored + 1;
          }
        }
      }
      assert rows[..|rows|] == rows;
    }
  }

  lemma FreshKey(rows: seq<Entry>, limit: nat, i: nat)
    requires DistinctRows(rows) && i < |rows|
    ensures rows[i].key !in Loaded(rows[..i], limit)
  {
    LoadedKeys(rows[..i], limit);
  }

  lemma GrowsByOne(entries: Entries, e: Entry)
    ensures e.key !in entries ==> |entries[e.key := e]| == |entries| + 1
  {
    assert entries[e.key := e].Keys == entries.Keys + {e.key};
    assert |entries[e.key := e].Keys| == |entries[e.key := e]| && |entries.Keys| == |entries|;
  }

  // ---- the writes of one process ------------------------------------------------------------------

  datatype Memory = Memory(entries: Entries, sent: seq<Entry>)

  function Receive(m: Memory, r: Request, limit: nat): Memory {
    match Setting(m.entries, r, limit)
    case Err(_) => m
    case Ok(e) => Memory(m.entries[e.key := e], m.sent + [e])
  }

  function ReceiveAll(start: Entries, requests: seq<Request>, limit: nat): Memory {
    if requests == [] then Memory(start, [])
    else Receive(ReceiveAll(start, requests[..|requests| - 1], limit), requests[|requests| - 1], limit)
  }

  function Writes(sent: seq<Entry>, k: string): nat {
    if sent == [] then 0
    else Writes(sent[..|sent| - 1], k) + if sent[|sent| - 1].key == k then 1 else 0
  }

  function VersionOf(entries: Entries, k: string): nat { if k in entries then entries[k].version else 0 }

  /** Memory holds what it started with, or the last thing it sent, and its version counts the writes. */
  ghost predicate Remembers(start: Entries, m: Memory, k: string) {
    && (k in m.entries ==>
          m.entries[k].key == k && (m.entries[k] in m.sent || (k in start && start[k] == m.entries[k])))
    && (k in start ==> k in m.entries)
    && VersionOf(m.entries, k) == Min(VersionOf(start, k) + Writes(m.sent, k), U32_MAX)
  }

  /** A sent write of `k` lies above the start and not above memory, unless versions ran out. */
  ghost predicate Between(start: Entries, m: Memory, k: string) {
    && VersionOf(start, k) <= VersionOf(m.entries, k) <= U32_MAX
    && forall e | e in m.sent && e.key == k ::
        && k in m.entries
        && e.version <= m.entries[k].version
        && (e.version == m.entries[k].version < U32_MAX ==> e == m.entries[k])
        && (e.version < U32_MAX ==> VersionOf(start, k) < e.version)
  }

  /** No two sent writes of `k` share a version, unless versions ran out. */
  ghost predicate Distinct(m: Memory, k: string) {
    forall e, f | e in m.sent && f in m.sent && e.key == f.key == k && e.version == f.version < U32_MAX :: e == f
  }

  /** How the sent writes of `k` stand to the start and to memory. */
  ghost predicate Tracks(start: Entries, m: Memory, k: string) {
    Remembers(start, m, k) && Between(start, m, k) && Distinct(m, k)
  }

  lemma ReceiveTracks(start: Entries, m: Memory, r: Request, limit: nat, k: string)
    requires Tracks(start, m, k)
    ensures Tracks(start, Receive(m, r, limit), k)
  {
    hide Setting, Remembers, Between, Distinct;
    match Setting(m.entries, r, limit)
    case Err(_) =>
    case Ok(e) =>
      SettingNext(m.entries, r, limit);
      SendRemembers(start, m, e, k);
      SendDistinct(start, m, e, k);
  }

  lemma SettingNext(entries: Entries, r: Request, limit: nat)
    ensures Setting(entries, r, limit).Ok? ==>
        Setting(entries, r, limit).value.version == NextVersion(entries, Setting(entries, r, limit).value.key)
  {
    hide Trim, Utf8Len, Truncated;
  }

  lemma SendRemembers(start: Entries, m: Memory, e: Entry, k: string)
    requires Remembers(start, m, k) && Between(start, m, k) && e.version == NextVersion(m.entries, e.key)
    ensures Remembers(start, Memory(m.entries[e.key := e], m.sent + [e]), k)
  {
    var sent := m.sent + [e];
    assert sent[..|m.sent|] == m.sent && sent[|m.sent|] == e;
    assert forall f :: f in sent <==> f in m.sent || f == e;
  }

  lemma SendDistinct(start: Entries, m: Memory, e: Entry, k: string)
    requires Between(start, m, k) && Distinct(m, k) && e.version == NextVersion(m.entries, e.key)
    requires VersionOf(m.entries, k) > 0 ==> k in m.entries
    ensures Between(start, Memory(m.entries[e.key := e], m.sent + [e]), k)
    ensures Distinct(Memory(m.entries[e.key := e], m.sent + [e]), k)
  {
    var sent := m.sent + [e];
    assert forall f :: f in sent <==> f in m.sent || f == e;
  }

  lemma {:induction false} MemoryTracks(start: Entries, requests: seq<Request>, limit: nat, k: string)
    requires Keyed(start) && forall j | j in start :: start[j].version <= U32_MAX
    ensures Tracks(start, ReceiveAll(start, requests, limit), k)
  {
    if requests != [] {
      hide Tracks;
      MemoryTracks(start, requests[..|requests| - 1], limit, k);
      ReceiveTracks(start, ReceiveAll(start, requests[..|requests| - 1], limit), requests[|requests| - 1], limit, k);
    }
  }

  // ---- the theorems -------------------------------------------------------------------------------------

  /** What the table can hold at a start, and what of it came back into memory. */
  ghost predicate Started(rows: Entries, start: Entries) {
    && Keyed(rows)
    && (forall k | k in rows :: rows[k].version <= I32_MAX)
    && (forall k | k in start :: k in rows && rows[k] == start[k])
  }

  /** The table of a sequence of rows. */
  function ByKey(rows: seq<Entry>): Entries {
    if rows == [] then map[] else ByKey(rows[..|rows| - 1])[rows[|rows| - 1].key := rows[|rows| - 1]]
  }

  lemma {:induction false} ByKeyHoldsRows(rows: seq<Entry>)
    requires DistinctRows(rows)
    ensures forall k :: k in ByKey(rows) ==> ByKey(rows)[k] in rows && ByKey(rows)[k].key == k
    ensures forall e | e in rows :: e.key in ByKey(rows) && ByKey(rows)[e.key] == e
  {
    if rows != [] {
      var n := |rows| - 1;
      ByKeyHoldsRows(rows[..n]);
      assert rows == rows[..n] + [rows[n]];
    }
  }

  /** Loading the rows of a table is such a start. */
  lemma LoadStarts(rows: seq<Entry>, limit: nat)
    requires DistinctRows(rows) && forall e | e in rows :: e.version <= I32_MAX
    ensures Started(ByKey(rows), Loaded(rows, limit))
  {
    hide Loaded, ByKey, DistinctRows;
    LoadedKeys(rows, limit);
    ByKeyHoldsRows(rows);
  }

  /** The version of a key counts its accepted writes on top of what was restored. */
  lemma VersionsCountWrites(rows: Entries, start: Entries, requests: seq<Request>, limit: nat, k: string)
    requires Started(rows, start)
    ensures var m := ReceiveAll(start, requests, limit);
      VersionOf(m.entries, k) == Min(VersionOf(start, k) + Writes(m.sent, k), U32_MAX)
  {
    MemoryTracks(start, requests, limit, k);
    hide ReceiveAll, Writes;
  }

  /** The writes of a restored or new key never compete for a version, with each other or with the row. */
  lemma NoCompetition(
    rows: Entries, start: Entries, requests: seq<Request>, limit: nat, landed: seq<Entry>, k: string)
    requires Started(rows, start)
    requires forall e | e in landed :: e in ReceiveAll(start, requests, limit).sent
    requires k in start || k !in rows
    ensures Agree(rows, landed, k)
  {
    MemoryTracks(start, requests, limit, k);
    hide ReceiveAll, Writes;
  }

  /**
   * Once every accepted write has reached the table, in any order and any number of times, the row
   * is the entry in memory exactly when that version fits the column and, for a row that was not
   * restored, memory has passed its version.
   */
  lemma MirrorCatchesUpIff(
    rows: Entries, start: Entries, requests: seq<Request>, limit: nat, landed: seq<Entry>, k: string)
    requires Started(rows, start)
    requires var m := ReceiveAll(start, requests, limit);
      k in m.entries && forall e :: e in landed <==> e in m.sent
    ensures var entry, table := ReceiveAll(start, requests, limit).entries[k], SaveAll(rows, landed);
      k in table && table[k] == entry <==>
        && entry.version <= I32_MAX
        && (k in rows && k !in start ==> rows[k].version < entry.version || rows[k] == entry)
  {
    MemoryTracks(start, requests, limit, k);
    HighestVersionStands(rows, landed, k);
    hide ReceiveAll, Writes, SaveAll;
    var m := ReceiveAll(start, requests, limit);
    var entry := m.entries[k];
    if entry.version <= I32_MAX && (entry in landed || (k in rows && rows[k] == entry)) {
      assert Offered(rows, landed, k, entry);
    }
    assert k in rows ==> Offered(rows, landed, k, rows[k]);
  }

  /** A row that was not restored keeps its old value through as many writes as its version. */
  lemma UnrestoredIgnoresWrites(
    rows: Entries, start: Entries, requests: seq<Request>, limit: nat, landed: seq<Entry>, k: string)
    requires Started(rows, start) && k in rows && k !in start
    requires var m := ReceiveAll(start, requests, limit);
      Writes(m.sent, k) <= rows[k].version && forall e | e in landed :: e in m.sent
    ensures k in SaveAll(rows, landed) && SaveAll(rows, landed)[k] == rows[k]
  {
    MemoryTracks(start, requests, limit, k);
    HighestVersionStands(rows, landed, k);
    hide ReceiveAll, Writes, SaveAll;
    assert Offered(rows, landed, k, rows[k]);
  }

  /** Such a case: the value in the table is too large to restore, and a write of a small one is lost. */
  lemma LostWrite()
    ensures var large := Entry("a", Value(1, 9, 11), 1, "x");
      var m := ReceiveAll(Loaded([large], 10), [Request("a", Value(2, 1, 1), "x")], 10);
      && "a" in m.entries && m.entries["a"].value == Value(2, 1, 1)
      && SaveAll(map["a" := large], m.sent) == map["a" := large]
  {
    var large := Entry("a", Value(1, 9, 11), 1, "x");
    var small := Entry("a", Value(2, 1, 1), 1, "x");
    var r := Request("a", Value(2, 1, 1), "x");
    assert [large][..0] == [] && [r][..0] == [];
    assert Trim("a") == "a" && Utf8Len("a") == 1 && Utf8Len("x") == 1;
    assert Loaded([large], 10) == map[];
    assert Setting(map[], r, 10) == Ok(small);
    assert Receive(Memory(map[], []), r, 10) == Memory(map["a" := small], [small]);
    assert [small][..0] == [];
    assert Save(map["a" := large], small) == map["a" := large];
  }
}
