/** The durable Slack event journal: append-only lines, last record wins, crashes and failed writes. */
module Journal {
  import opened Prelude
  import opened Text

  const MAX_EVENT_ID_BYTES := 255
  const MAX_IDENTIFIER_BYTES := 255

  datatype State = Claimed | WorkflowCreated | Completed | Canceled

  predicate Terminal(s: State) { s == Completed || s == Canceled }

  datatype Record = Record(
    eventId: string, state: State, workflow: Option<string>, posted: set<string>, cancelRequested: bool, stamp: nat)

  predicate ValidEventId(value: string) {
    && value != "" && |value| <= MAX_EVENT_ID_BYTES
    && forall c | c in value ::
        'a' <= c <= 'z' || 'A' <= c <= 'Z' || '0' <= c <= '9' || c == '-' || c == '_' || c == ':' || c == '.'
  }

  predicate ValidPosted(agents: set<string>) {
    forall a | a in agents :: a != "" && Utf8Len(a) <= MAX_IDENTIFIER_BYTES && Printable(a)
  }

  /** What replay demands of a persisted record. */
  predicate ValidRecord(r: Record) {
    ValidEventId(r.eventId) && (r.workflow.Some? ==> ValidEventId(r.workflow.value)) && ValidPosted(r.posted)
  }

  /** The code point of a letter, a digit, or one of the four marks. */
  predicate PlainCode(n: int) {
    n == 45 || n == 46 || 48 <= n <= 58 || 65 <= n <= 90 || n == 95 || 97 <= n <= 122
  }

  /** An event id has 1 to 255 characters, letters, digits and `-`, `.`, `:`, `_`; so it has no space and no slash. */
  lemma EventIdMeans(value: string)
    ensures ValidEventId(value) <==> 1 <= |value| <= 255 && forall i | 0 <= i < |value| :: PlainCode(value[i] as int)
    ensures ValidEventId(value) ==> ' ' !in value && '/' !in value && Printable(value)
  {
    if ValidEventId(value) {
      forall i | 0 <= i < |value|
        ensures PlainCode(value[i] as int)
      {
        assert value[i] in value;
      }
    }
  }

  /** What replay accepts of a record, told apart from its own predicates. */
  lemma ValidRecordMeans(r: Record)
    ensures ValidRecord(r) <==>
        && ValidEventId(r.eventId) && (r.workflow == None || ValidEventId(r.workflow.value))
        && forall a | a in r.posted :: 1 <= |a| && Utf8Len(a) < 256 && forall c | c in a :: !IsControl(c)
  {
  }

  // ---- the file ------------------------------------------------------------------------------

  /** A line parses as a record, is blank and skipped, or does not parse. */
  datatype Line = Entry(record: Record) | Blank | Broken

  /** `unterminated`: the last line has no newline, so the next write runs into it. */
  datatype File = File(lines: seq<Line>, unterminated: bool)

  /** How a write can end. Only `Landed` is reported as success. */
  datatype WriteResult =
    | Landed          // the whole line, synced
    | Nothing         // no byte
    | Unsynced        // the whole line, but the sync failed
    | NoNewline       // the record without its newline
    | Torn            // part of the record

  /** The next write runs into an open line that is not blank; what it leaves there does not parse. */
  predicate Dangling(f: File) { f.unterminated && f.lines != [] && !f.lines[|f.lines| - 1].Blank? }

  /** The lines a write starts after: white space in front of a record does not matter. */
  function Settled(f: File): seq<Line> {
    if f.unterminated && f.lines != [] && f.lines[|f.lines| - 1].Blank? then f.lines[..|f.lines| - 1] else f.lines
  }

  function Append(f: File, r: Record, result: WriteResult): File {
    if result == Nothing then f
    else if Dangling(f) then File(f.lines[..|f.lines| - 1] + [Broken], result == NoNewline || result == Torn)
    else
      match result
      case NoNewline => File(Settled(f) + [Entry(r)], true)
      case Torn => File(Settled(f) + [Broken], true)
      case _ => File(Settled(f) + [Entry(r)], false)
  }

  /** `open`: the records the lines add up to, the last one of an id winning; or failure. */
  function Replay(lines: seq<Line>): Option<map<string, Record>> {
    if lines == [] then Some(map[])
    else
      var before := Replay(lines[..|lines| - 1]);
      match lines[|lines| - 1]
      case Broken => None
      case Blank => before
      case Entry(r) => if before.Some? && ValidRecord(r) then Some(before.value[r.eventId := r]) else None
  }

  /** The file opens exactly when every line that is not blank parses to a valid record. */
  lemma {:induction false} OpensIff(lines: seq<Line>)
    ensures Replay(lines).Some? <==> forall l | l in lines :: l.Blank? || (l.Entry? && ValidRecord(l.record))
  {
    hide ValidRecord;
    if lines != [] {
      var n := |lines| - 1;
      OpensIff(lines[..n]);
      assert lines == lines[..n] + [lines[n]];
      assert lines[n] in lines;
    }
  }

  lemma ReplayAppend(lines: seq<Line>, r: Record)
    ensures Replay(lines + [Entry(r)]) ==
        if Replay(lines).Some? && ValidRecord(r) then Some(Replay(lines).value[r.eventId := r]) else None
  {
    assert (lines + [Entry(r)])[..|lines|] == lines;
  }

  /** Replay files every record under its own event id. */
  lemma {:induction false} KeyedById(lines: seq<Line>)
    ensures Replay(lines).Some? ==> forall id | id in Replay(lines).value :: Replay(lines).value[id].eventId == id
  {
    hide ValidRecord;
    if lines != [] {
      KeyedById(lines[..|lines| - 1]);
    }
  }

  /** A write keeps an openable file openable exactly if it is not torn, hits no dangling line and lands valid. */
  lemma AppendOpensIff(f: File, r: Record, result: WriteResult)
    requires Replay(f.lines).Some?
    ensures Replay(Append(f, r, result).lines).Some? <==>
        result == Nothing || (result != Torn && !Dangling(f) && ValidRecord(r))
  {
    hide ValidRecord;
    SettledReplay(f);
    ReplayAppend(Settled(f), r);
    BrokenLast(Settled(f));
    if Dangling(f) {
      BrokenLast(f.lines[..|f.lines| - 1]);
    }
  }

  lemma BrokenLast(lines: seq<Line>)
    ensures Replay(lines + [Broken]).None?
  {
    assert (lines + [Broken])[|lines|] == Broken;
  }

  lemma SettledReplay(f: File)
    ensures Replay(Settled(f)) == Replay(f.lines)
  {
  }

  /** A file that does not open never opens again, whatever is appended. */
  lemma BrokenStaysBroken(f: File, r: Record, result: WriteResult)
    requires Replay(f.lines).None?
    ensures Replay(Append(f, r, result).lines).None?
  {
    hide ValidRecord;
    SettledReplay(f);
    ReplayAppend(Settled(f), r);
    BrokenLast(Settled(f));
    if Dangling(f) {
      BrokenLast(f.lines[..|f.lines| - 1]);
    }
  }

  // ---- the operations ----------------------------------------------------------------------------

  datatype Change =
    | SetWorkflow(workflowId: string)
    | MarkPosted(agent: string)
    | Complete
    | RequestCancel
    | MarkCanceled

  function Changed(r: Record, c: Change, stamp: nat): Record {
    var changed :=
      match c
      case SetWorkflow(id) => r.(state := WorkflowCreated, workflow := Some(id))
      case MarkPosted(agent) => r.(posted := r.posted + {agent})
      case Complete => r.(state := Completed)
      case RequestCancel => r.(cancelRequested := true)
      case MarkCanceled => r.(state := Canceled);
    changed.(stamp := stamp)
  }

  datatype Store = Store(records: map<string, Record>, file: File)

  datatype Reply = ClaimedNow | Duplicate | Updated | Failed

  datatype Outcome = Outcome(store: Store, reply: Reply)

  function Fresh(id: string, stamp: nat): Record { Record(id, Claimed, None, {}, false, stamp) }

  function Claiming(s: Store, id: string, stamp: nat, result: WriteResult): Outcome {
    if !ValidEventId(id) then Outcome(s, Failed)
    else if id in s.records then Outcome(s, Duplicate)
    else
      var r := Fresh(id, stamp);
      var file := Append(s.file, r, result);
      if result == Landed then Outcome(Store(s.records[id := r], file), ClaimedNow)
      else Outcome(Store(s.records, file), Failed)
  }

  /** `update`: memory changes only if the write was reported as successful. */
  function Updating(s: Store, id: string, c: Change, stamp: nat, result: WriteResult): Outcome {
    if id !in s.records then Outcome(s, Failed)
    else
      var r := Changed(s.records[id], c, stamp);
      var file := Append(s.file, r, result);
      if result == Landed then Outcome(Store(s.records[id := r], file), Updated)
      else Outcome(Store(s.records, file), Failed)
  }

  datatype CancelOutcome = Requested | AlreadyTerminal(state: State) | Unknown | CancelFailed

  datatype CancelResult = CancelResult(store: Store, outcome: CancelOutcome)

  /** `request_cancel` after its snapshot: the record `seen` may no longer be the one in the store. */
  function Cancelling(s: Store, id: string, seen: Option<Record>, stamp: nat, result: WriteResult): CancelResult {
    if seen.None? then CancelResult(s, Unknown)
    else if Terminal(seen.value.state) then CancelResult(s, AlreadyTerminal(seen.value.state))
    else
      var o := Updating(s, id, RequestCancel, stamp, result);
      CancelResult(o.store, if o.reply == Updated then Requested else CancelFailed)
  }

  /** The event store, changing its records and its file in place. */
  class EventStore {
    var records: map<string, Record>
    var file: File

    ghost function Value(): Store
      reads this
    {
      Store(records, file)
    }

    /** Opens a journal that replays; see `Open` for the others. */
    constructor (records: map<string, Record>, file: File)
      requires Replay(file.lines) == Some(records)
      ensures Value() == Store(records, file)
    {
      this.records, this.file := records, file;
    }

    /** Reads the lines one by one. */
    static method Open(file: File) returns (records: Option<map<string, Record>>)
      ensures records == Replay(file.lines)
    {
      var lines := file.lines;
      var found: map<string, Record> := map[];
      OpensIff(lines);
      for i := 0 to |lines|
        invariant Replay(lines[..i]) == Some(found)
      {
        hide ValidRecord;
        assert lines[..i + 1] == lines[..i] + [lines[i]];
        assert lines[i] in lines;
        if lines[i].Blank? {
          assert lines[..i + 1][..i] == lines[..i];
          continue;
        }
        if lines[i].Broken? || !ValidRecord(lines[i].record) {
          return None;
        }
        ReplayAppend(lines[..i], lines[i].record);
        found := found[lines[i].record.eventId := lines[i].record];
      }
      assert lines[..|lines|] == lines;
      return Some(found);
    }

    method Write(r: Record, result: WriteResult) returns (ok: bool)
      modifies `file
      ensures file == Append(old(file), r, result)
      ensures ok <==> result == Landed
    {
      file := Append(file, r, result);
      return result == Landed;
    }

    method Claim(id: string, stamp: nat, result: WriteResult) returns (reply: Reply)
      modifies this
      ensures Outcome(Value(), reply) == Claiming(old(Value()), id, stamp, result)
    {
      if !ValidEventId(id) {
        return Failed;
      }
      if id in records {
        return Duplicate;
      }
      var r := Fresh(id, stamp);
      var ok := Write(r, result);
      if !ok {
        return Failed;
      }
      records := records[id := r];
      return ClaimedNow;
    }

    method Update(id: string, c: Change, stamp: nat, result: WriteResult) returns (reply: Reply)
      modifies this
      ensures Outcome(Value(), reply) == Updating(old(Value()), id, c, stamp, result)
    {
      if id !in records {
        return Failed;
      }
      var previous := records[id];
      records := records[id := Changed(previous, c, stamp)];
      var ok := Write(records[id], result);
      if !ok {
        records := records[id := previous];
        assert records == old(records);
        return Failed;
      }
      return Updated;
    }

    method Snapshot(id: string) returns (seen: Option<Record>)
      ensures seen.Some? <==> id in records
      ensures seen.Some? ==> seen.value == records[id]
    {
      return if id in records then Some(records[id]) else None;
    }

    /** The second half of a cancel request; other requests may have run since the snapshot. */
    method FinishCancel(id: string, seen: Option<Record>, stamp: nat, result: WriteResult)
      returns (outcome: CancelOutcome)
      modifies this
      ensures CancelResult(Value(), outcome) == Cancelling(old(Value()), id, seen, stamp, result)
    {
      if seen.None? {
        return Unknown;
      }
      if Terminal(seen.value.state) {
        return AlreadyTerminal(seen.value.state);
      }
      var reply := Update(id, RequestCancel, stamp, result);
      return if reply == Updated then Requested else CancelFailed;
    }
  }

  // ---- runs -----------------------------------------------------------------------------------------

  datatype World = World(store: Store, claims: seq<string>)

  datatype Action =
    | DoClaim(id: string, stamp: nat, result: WriteResult)
    | DoUpdate(id: string, change: Change, stamp: nat, result: WriteResult)
    | Restart

  ghost predicate Step(w: World, action: Action, x: World) {
    match action
    case DoClaim(id, stamp, result) =>
      var o := Claiming(w.store, id, stamp, result);
      x == World(o.store, if o.reply == ClaimedNow then w.claims + [id] else w.claims)
    case DoUpdate(id, change, stamp, result) =>
      x == w.(store := Updating(w.store, id, change, stamp, result).store)
    case Restart =>
      // the process comes back only if the journal opens
      && Replay(w.store.file.lines).Some?
      && x == w.(store := Store(Replay(w.store.file.lines).value, w.store.file))
  }

  ghost predicate Run(ws: seq<World>, actions: seq<Action>) {
    && |ws| == |actions| + 1
    && ws[0] == World(Store(map[], File([], false)), [])
    && forall i | 0 <= i < |actions| :: Step(ws[i], actions[i], ws[i + 1])
  }

  /** The later record has at least the cancel intent and the posted agents of the earlier one. */
  predicate Grows(a: Record, b: Record) {
    a.eventId == b.eventId && a.posted <= b.posted && (a.cancelRequested ==> b.cancelRequested)
  }

  ghost predicate AllGrow(a: map<string, Record>, b: map<string, Record>) {
    forall id | id in a :: id in b && Grows(a[id], b[id])
  }

  /** Every claimed id is in memory, and whatever is in memory is in the journal, or further along. */
  ghost predicate Inv(w: World) {
    && (forall id | id in w.claims :: id in w.store.records)
    && (forall i, j | 0 <= i < j < |w.claims| :: w.claims[i] != w.claims[j])
    && (forall id | id in w.store.records :: w.store.records[id].eventId == id)
    && (Replay(w.store.file.lines).Some? ==>
          && AllGrow(w.store.records, Replay(w.store.file.lines).value)
          && forall id | id in Replay(w.store.file.lines).value :: Replay(w.store.file.lines).value[id].eventId == id)
  }

  /** Appending a record that grew from the memory keeps the journal ahead of the memory. */
  lemma AppendKeepsAhead(f: File, r: Record, result: WriteResult)
    ensures var g := Append(f, r, result);
      Replay(g.lines).Some? ==>
        && Replay(f.lines).Some?
        && (Replay(g.lines) == Replay(f.lines) || Replay(g.lines).value == Replay(f.lines).value[r.eventId := r])
        && (result == Landed ==> Replay(g.lines).value == Replay(f.lines).value[r.eventId := r])
  {
    hide ValidRecord;
    if Replay(f.lines).None? {
      BrokenStaysBroken(f, r, result);
    } else {
      AppendOpensIff(f, r, result);
      SettledReplay(f);
      ReplayAppend(Settled(f), r);
    }
  }

  lemma ClaimKeepsInv(w: World, id: string, stamp: nat, result: WriteResult, x: World)
    requires Inv(w) && Step(w, DoClaim(id, stamp, result), x)
    ensures Inv(x) && AllGrow(w.store.records, x.store.records)
  {
    hide Append, Replay, ValidEventId;
    AppendKeepsAhead(w.store.file, Fresh(id, stamp), result);
  }

  lemma UpdateKeepsInv(w: World, id: string, change: Change, stamp: nat, result: WriteResult, x: World)
    requires Inv(w) && Step(w, DoUpdate(id, change, stamp, result), x)
    ensures Inv(x) && AllGrow(w.store.records, x.store.records)
  {
    hide Append, Replay, Changed;
    if id in w.store.records {
      var r := Changed(w.store.records[id], change, stamp);
      ChangeGrows(w.store.records[id], change, stamp);
      AppendKeepsAhead(w.store.file, r, result);
    }
  }

  lemma ChangeGrows(r: Record, change: Change, stamp: nat)
    ensures Grows(r, Changed(r, change, stamp))
  {
  }

  lemma StepKeepsInv(w: World, action: Action, x: World)
    requires Inv(w) && Step(w, action, x)
    ensures Inv(x) && AllGrow(w.store.records, x.store.records)
  {
    match action
    case DoClaim(id, stamp, result) =>
      ClaimKeepsInv(w, id, stamp, result, x);
    case DoUpdate(id, change, stamp, result) =>
      UpdateKeepsInv(w, id, change, stamp, result, x);
    case Restart =>
      hide Replay;
  }

  lemma {:induction false} RunKeepsInv(ws: seq<World>, actions: seq<Action>, i: nat, j: nat)
    requires Run(ws, actions) && i <= j < |ws|
    ensures Inv(ws[j]) && AllGrow(ws[i].store.records, ws[j].store.records)
  {
    hide Step;
    if i < j {
      RunKeepsInv(ws, actions, i, j - 1);
      StepKeepsInv(ws[j - 1], actions[j - 1], ws[j]);
    } else if j > 0 {
      RunKeepsInv(ws, actions, j - 1, j - 1);
      StepKeepsInv(ws[j - 1], actions[j - 1], ws[j]);
    }
  }

  // ---- the theorems -------------------------------------------------------------------------------------

  /** Across crashes, restarts and failed writes of every kind, no event id is ever claimed twice. */
  lemma ClaimedAtMostOnce(ws: seq<World>, actions: seq<Action>, k: nat, i: nat, j: nat)
    requires Run(ws, actions) && k < |ws| && i < j < |ws[k].claims|
    ensures ws[k].claims[i] != ws[k].claims[j]
  {
    RunKeepsInv(ws, actions, k, k);
  }

  /** A record never disappears, never forgets a cancel request and never forgets a posted agent. */
  lemma IntentNeverShrinks(ws: seq<World>, actions: seq<Action>, i: nat, j: nat, id: string)
    requires Run(ws, actions) && i <= j < |ws| && id in ws[i].store.records
    ensures id in ws[j].store.records && Grows(ws[i].store.records[id], ws[j].store.records[id])
  {
    RunKeepsInv(ws, actions, i, j);
  }

  /** The record an operation tries to append, if it gets that far. */
  function Attempt(s: Store, action: Action): Option<Record> {
    match action
    case DoClaim(id, stamp, _) => if ValidEventId(id) && id !in s.records then Some(Fresh(id, stamp)) else None
    case DoUpdate(id, change, stamp, _) => if id in s.records then Some(Changed(s.records[id], change, stamp)) else None
    case Restart => None
  }

  ghost predicate InSync(s: Store) { Replay(s.file.lines) == Some(s.records) && !s.file.unterminated }

  /**
   * From a journal that replays to the memory, a step keeps it so exactly when the write is all or
   * nothing as reported: nothing written on failure, or a landed line that is valid, or a line that
   * repeats what memory already holds.
   */
  lemma StaysInSyncIff(w: World, action: Action, x: World)
    requires InSync(w.store) && Step(w, action, x)
    ensures var attempt := Attempt(w.store, action);
      InSync(x.store) <==>
        || attempt.None?
        || action.result == Nothing
        || (action.result == Landed && ValidRecord(attempt.value))
        || (action.result == Unsynced && ValidRecord(attempt.value)
            && attempt.value.eventId in w.store.records && w.store.records[attempt.value.eventId] == attempt.value)
  {
    hide ValidRecord, ValidEventId, Append, Replay, Changed;
    var attempt := Attempt(w.store, action);
    if attempt.Some? {
      AppendToSynced(w.store, attempt.value, action.result);
      KeyedById(w.store.file.lines);
      ChangeKeepsId(w.store, action);
    }
  }

  lemma ChangeKeepsId(s: Store, action: Action)
    ensures action.DoUpdate? && action.id in s.records ==>
        Changed(s.records[action.id], action.change, action.stamp).eventId == s.records[action.id].eventId
  {
  }

  /** What one write does to a journal that is in sync. */
  lemma AppendToSynced(s: Store, r: Record, result: WriteResult)
    requires InSync(s)
    ensures var g := Append(s.file, r, result);
      && (result == Nothing ==> g == s.file)
      && (result in {NoNewline, Torn} ==> g.unterminated)
      && (result in {Landed, Unsynced} ==>
            && !g.unterminated
            && Replay(g.lines) == if ValidRecord(r) then Some(s.records[r.eventId := r]) else None)
    ensures s.records[r.eventId := r] == s.records <==> r.eventId in s.records && s.records[r.eventId] == r
  {
    hide ValidRecord, Replay;
    ReplayAppend(s.file.lines, r);
    var grown := s.records[r.eventId := r];
    assert r.eventId in grown && grown[r.eventId] == r;
  }

  /** With writes that land wholly or not at all, the journal replays to the memory throughout every run. */
  lemma {:induction false} AtomicWritesStayInSync(ws: seq<World>, actions: seq<Action>, i: nat)
    requires Run(ws, actions) && i < |ws| && Atomic(actions, i)
    ensures InSync(ws[i].store)
    ensures forall id | id in ws[i].store.records :: ValidRecord(ws[i].store.records[id])
  {
    if i > 0 {
      AtomicWritesStayInSync(ws, actions, i - 1);
      AtomicStep(ws[i - 1], actions[i - 1], ws[i]);
    }
  }

  lemma AtomicStep(w: World, action: Action, x: World)
    requires Step(w, action, x) && InSync(w.store)
    requires forall id | id in w.store.records :: ValidRecord(w.store.records[id])
    requires !action.Restart? ==> action.result in {Landed, Nothing}
    requires action.DoUpdate? ==>
        && (action.change.SetWorkflow? ==> ValidEventId(action.change.workflowId))
        && (action.change.MarkPosted? ==> ValidPosted({action.change.agent}))
    ensures InSync(x.store)
    ensures forall id | id in x.store.records :: ValidRecord(x.store.records[id])
  {
    AttemptIsValid(w, action);
    StaysInSyncIff(w, action, x);
    hide ValidRecord, ValidEventId, Replay, Append;
  }

  lemma AttemptIsValid(w: World, action: Action)
    requires forall id | id in w.store.records :: ValidRecord(w.store.records[id])
    requires action.DoUpdate? ==>
        && (action.change.SetWorkflow? ==> ValidEventId(action.change.workflowId))
        && (action.change.MarkPosted? ==> ValidPosted({action.change.agent}))
    ensures Attempt(w.store, action).Some? ==> ValidRecord(Attempt(w.store, action).value)
  {
    hide Utf8Len, Printable, ValidEventId;
    if action.DoUpdate? && action.id in w.store.records && action.change.MarkPosted? {
      assert action.change.agent in {action.change.agent};
    }
  }

  // ---- what a record says -------------------------------------------------------------------------------

  /** The `k`th action was acknowledged: it changed `id` by `c`, and the caller was told so. */
  ghost predicate Acked(ws: seq<World>, actions: seq<Action>, k: nat, id: string, c: Change)
    requires |ws| == |actions| + 1 && k < |actions|
  {
    && actions[k].DoUpdate? && actions[k].id == id && actions[k].change == c
    && Updating(ws[k].store, id, c, actions[k].stamp, actions[k].result).reply == Updated
  }

  /** What each change does to a record; the time stamp aside, it does nothing else. */
  lemma ChangedMeans(r: Record, c: Change, stamp: nat)
    ensures var x := Changed(r, c, stamp);
      && x.eventId == r.eventId && x.stamp == stamp
      && x.posted == (if c.MarkPosted? then r.posted + {c.agent} else r.posted)
      && x.cancelRequested == (r.cancelRequested || c == RequestCancel)
      && x.workflow == (if c.SetWorkflow? then Some(c.workflowId) else r.workflow)
      && x.state == match c
         case SetWorkflow(_) => WorkflowCreated
         case Complete => Completed
         case MarkCanceled => Canceled
         case _ => r.state
  {
  }

  /** Memory after a step: a new record for a claim, a changed one for an acknowledged update, and else no change. */
  lemma StepRecords(w: World, action: Action, x: World)
    requires Step(w, action, x)
    ensures action.DoClaim? ==>
        if ValidEventId(action.id) && action.id !in w.store.records && action.result == Landed then
          && x.store.records == w.store.records[action.id := Record(action.id, Claimed, None, {}, false, action.stamp)]
          && x.claims == w.claims + [action.id]
        else x.store.records == w.store.records && x.claims == w.claims
    ensures action.DoUpdate? ==>
        && x.claims == w.claims
        && var acked := action.id in w.store.records && action.result == Landed;
        && (acked <==>
              Updating(w.store, action.id, action.change, action.stamp, action.result).reply == Updated)
        && x.store.records ==
            if acked then
              w.store.records[action.id := Changed(w.store.records[action.id], action.change, action.stamp)]
            else w.store.records
    ensures action.Restart? ==> x.claims == w.claims
  {
    hide Append, Replay, ValidEventId, Changed;
  }

  /** In every run, what was acknowledged is in the record from then on, through restarts and failed writes. */
  lemma AcknowledgedIsKept(ws: seq<World>, actions: seq<Action>, k: nat, j: nat, id: string, c: Change)
    requires Run(ws, actions) && k < j < |ws| && Acked(ws, actions, k, id, c)
    ensures id in ws[j].store.records
    ensures c.MarkPosted? ==> c.agent in ws[j].store.records[id].posted
    ensures c == RequestCancel ==> ws[j].store.records[id].cancelRequested
  {
    assert Step(ws[k], actions[k], ws[k + 1]);
    StepRecords(ws[k], actions[k], ws[k + 1]);
    hide Step, Changed;
    ChangedMeans(ws[k].store.records[id], c, actions[k].stamp);
    IntentNeverShrinks(ws, actions, k + 1, j, id);
  }

  /** Writes land wholly or not at all, and the callers pass valid ids and keys. */
  ghost predicate Atomic(actions: seq<Action>, i: nat)
    requires i <= |actions|
  {
    && (forall k | 0 <= k < i && !actions[k].Restart? :: actions[k].result in {Landed, Nothing})
    && forall k | 0 <= k < i && actions[k].DoUpdate? ::
        && (actions[k].change.SetWorkflow? ==> ValidEventId(actions[k].change.workflowId))
        && (actions[k].change.MarkPosted? ==> ValidPosted({actions[k].change.agent}))
  }

  /** With atomic writes a restart changes nothing. */
  lemma AtomicRecords(ws: seq<World>, actions: seq<Action>, i: nat)
    requires Run(ws, actions) && i < |actions| && Atomic(actions, i)
    ensures actions[i].Restart? ==> ws[i + 1] == ws[i]
  {
    hide ValidEventId, ValidPosted;
    AtomicWritesStayInSync(ws, actions, i);
    hide ValidRecord, Replay;
    assert Step(ws[i], actions[i], ws[i + 1]);
  }

  /** An acknowledged change of the state, and the state it sets. */
  function SetsState(c: Change): Option<State> {
    match c
    case SetWorkflow(_) => Some(WorkflowCreated)
    case Complete => Some(Completed)
    case MarkCanceled => Some(Canceled)
    case _ => None
  }

  ghost predicate StateSetAt(ws: seq<World>, actions: seq<Action>, k: nat, id: string)
    requires |ws| == |actions| + 1 && k < |actions|
  {
    actions[k].DoUpdate? && Acked(ws, actions, k, id, actions[k].change) && SetsState(actions[k].change).Some?
  }

  /** The last change of the state before `i` that was acknowledged is the `k`th action. */
  ghost predicate StateLastSetAt(ws: seq<World>, actions: seq<Action>, i: nat, k: nat, id: string)
    requires |ws| == |actions| + 1 && i <= |actions|
  {
    && k < i && actions[k].DoUpdate? && StateSetAt(ws, actions, k, id)
    && forall m: nat | k < m < i :: !StateSetAt(ws, actions, m, id)
  }

  ghost predicate WorkflowSetAt(ws: seq<World>, actions: seq<Action>, k: nat, id: string)
    requires |ws| == |actions| + 1 && k < |actions|
  {
    actions[k].DoUpdate? && actions[k].change.SetWorkflow? && Acked(ws, actions, k, id, actions[k].change)
  }

  ghost predicate WorkflowLastSetAt(ws: seq<World>, actions: seq<Action>, i: nat, k: nat, id: string)
    requires |ws| == |actions| + 1 && i <= |actions|
  {
    k < i && WorkflowSetAt(ws, actions, k, id) && forall m: nat | k < m < i :: !WorkflowSetAt(ws, actions, m, id)
  }

  /** The record of `id` says exactly what was acknowledged before `i`. */
  ghost predicate SaysWhatWasAcked(ws: seq<World>, actions: seq<Action>, i: nat, id: string)
    requires |ws| == |actions| + 1 && i <= |actions| && id in ws[i].store.records
  {
    var r := ws[i].store.records[id];
    && r.eventId == id
    && (forall agent :: agent in r.posted <==> exists k: nat | k < i :: Acked(ws, actions, k, id, MarkPosted(agent)))
    && (r.cancelRequested <==> exists k: nat | k < i :: Acked(ws, actions, k, id, RequestCancel))
    && StateSays(ws, actions, i, id, r.state)
    && WorkflowSays(ws, actions, i, id, r.workflow)
  }

  /** The state is that of the last acknowledged change of it, or still the claim's. */
  ghost predicate StateSays(ws: seq<World>, actions: seq<Action>, i: nat, id: string, state: State)
    requires |ws| == |actions| + 1 && i <= |actions|
  {
    || (state == Claimed && forall k: nat | k < i :: !StateSetAt(ws, actions, k, id))
    || exists k: nat :: StateLastSetAt(ws, actions, i, k, id) && SetsState(actions[k].change) == Some(state)
  }

  /** The workflow is the last acknowledged one, or none. */
  ghost predicate WorkflowSays(ws: seq<World>, actions: seq<Action>, i: nat, id: string, workflow: Option<string>)
    requires |ws| == |actions| + 1 && i <= |actions|
  {
    || (workflow == None && forall k: nat | k < i :: !WorkflowSetAt(ws, actions, k, id))
    || exists k: nat ::
        WorkflowLastSetAt(ws, actions, i, k, id) && workflow == Some(actions[k].change.workflowId)
  }

  lemma StateSaysStep(ws: seq<World>, actions: seq<Action>, i: nat, id: string, before: State, after: State)
    requires |ws| == |actions| + 1 && i < |actions| && StateSays(ws, actions, i, id, before)
    requires if StateSetAt(ws, actions, i, id) then SetsState(actions[i].change) == Some(after) else after == before
    ensures StateSays(ws, actions, i + 1, id, after)
  {
    hide SetsState;
    if StateSetAt(ws, actions, i, id) {
      assert StateLastSetAt(ws, actions, i + 1, i, id);
    } else {
      hide StateSetAt;
      if k: nat :| StateLastSetAt(ws, actions, i, k, id) && SetsState(actions[k].change) == Some(before) {
        assert StateLastSetAt(ws, actions, i + 1, k, id);
      }
    }
  }

  lemma WorkflowSaysStep(
    ws: seq<World>, actions: seq<Action>, i: nat, id: string, before: Option<string>, after: Option<string>)
    requires |ws| == |actions| + 1 && i < |actions| && WorkflowSays(ws, actions, i, id, before)
    requires if WorkflowSetAt(ws, actions, i, id) then after == Some(actions[i].change.workflowId) else after == before
    ensures WorkflowSays(ws, actions, i + 1, id, after)
  {
    if WorkflowSetAt(ws, actions, i, id) {
      assert WorkflowLastSetAt(ws, actions, i + 1, i, id);
    } else {
      hide WorkflowSetAt;
      if k: nat :| WorkflowLastSetAt(ws, actions, i, k, id) && before == Some(actions[k].change.workflowId) {
        assert WorkflowLastSetAt(ws, actions, i + 1, k, id);
      }
    }
  }

  lemma PostedStep(ws: seq<World>, actions: seq<Action>, i: nat, id: string, before: set<string>, after: set<string>)
    requires |ws| == |actions| + 1 && i < |actions|
    requires forall agent ::
        agent in before <==> exists k: nat | k < i :: Acked(ws, actions, k, id, MarkPosted(agent))
    requires forall agent :: agent in after <==> agent in before || Acked(ws, actions, i, id, MarkPosted(agent))
    ensures forall agent ::
        agent in after <==> exists k: nat | k < i + 1 :: Acked(ws, actions, k, id, MarkPosted(agent))
  {
    hide Acked;
  }

  lemma CancelStep(ws: seq<World>, actions: seq<Action>, i: nat, id: string, before: bool, after: bool)
    requires |ws| == |actions| + 1 && i < |actions|
    requires before <==> exists k: nat | k < i :: Acked(ws, actions, k, id, RequestCancel)
    requires after <==> before || Acked(ws, actions, i, id, RequestCancel)
    ensures after <==> exists k: nat | k < i + 1 :: Acked(ws, actions, k, id, RequestCancel)
  {
    hide Acked;
  }

  /** How one step changes one record, in terms of what was acknowledged. */
  lemma RecordStep(ws: seq<World>, actions: seq<Action>, i: nat, id: string)
    requires Run(ws, actions) && i < |actions| && Atomic(actions, i) && id in ws[i].store.records
    ensures id in ws[i + 1].store.records
    ensures var r, x := ws[i].store.records[id], ws[i + 1].store.records[id];
      && x.eventId == r.eventId
      && (forall agent :: agent in x.posted <==> agent in r.posted || Acked(ws, actions, i, id, MarkPosted(agent)))
      && (x.cancelRequested <==> r.cancelRequested || Acked(ws, actions, i, id, RequestCancel))
      && (if StateSetAt(ws, actions, i, id) then SetsState(actions[i].change) == Some(x.state) else x.state == r.state)
      && (if WorkflowSetAt(ws, actions, i, id) then x.workflow == Some(actions[i].change.workflowId)
          else x.workflow == r.workflow)
  {
    assert Step(ws[i], actions[i], ws[i + 1]);
    StepRecords(ws[i], actions[i], ws[i + 1]);
    AtomicRecords(ws, actions, i);
    hide Step, Run, Changed, Updating, Atomic, ValidEventId;
    if actions[i].DoUpdate? && actions[i].id == id {
      ChangedMeans(ws[i].store.records[id], actions[i].change, actions[i].stamp);
    }
  }

  /**
   * With atomic writes, at every point of every run, the ids on record are those of the acknowledged
   * claims, and the record of each says exactly what was acknowledged for it.
   */
  lemma {:induction false} RecordsAreExact(ws: seq<World>, actions: seq<Action>, i: nat, id: string)
    requires Run(ws, actions) && i < |ws| && Atomic(actions, i)
    ensures id in ws[i].store.records <==> id in ws[i].claims
    ensures id in ws[i].store.records ==> SaysWhatWasAcked(ws, actions, i, id)
  {
    if i > 0 {
      var w, x := ws[i - 1], ws[i];
      AtomicBefore(actions, i);
      RecordsAreExact(ws, actions, i - 1, id);
      assert Step(w, actions[i - 1], x);
      StepRecords(w, actions[i - 1], x);
      AtomicRecords(ws, actions, i - 1);
      hide Step, Run, Changed, Updating, Atomic, ValidEventId, StateSays, WorkflowSays, StateSetAt, WorkflowSetAt,
        Acked;
      if id in w.store.records {
        var r, s := w.store.records[id], x.store.records[id];
        RecordStep(ws, actions, i - 1, id);
        PostedStep(ws, actions, i - 1, id, r.posted, s.posted);
        CancelStep(ws, actions, i - 1, id, r.cancelRequested, s.cancelRequested);
        StateSaysStep(ws, actions, i - 1, id, r.state, s.state);
        WorkflowSaysStep(ws, actions, i - 1, id, r.workflow, s.workflow);
      } else if id in x.store.records {
        NothingAckedBefore(ws, actions, i, id);
      }
    }
  }

  lemma AtomicBefore(actions: seq<Action>, i: nat)
    requires 0 < i <= |actions| && Atomic(actions, i)
    ensures Atomic(actions, i - 1)
  {
  }

  /** A claim starts from nothing: no change of its id was acknowledged before. */
  lemma NothingAckedBefore(ws: seq<World>, actions: seq<Action>, i: nat, id: string)
    requires Run(ws, actions) && 0 < i < |ws| && Atomic(actions, i)
    requires id !in ws[i - 1].store.records && id in ws[i].store.records
    ensures ws[i].store.records[id].eventId == id && ws[i].store.records[id].posted == {}
    ensures !ws[i].store.records[id].cancelRequested
    ensures forall k: nat, c | k < i :: !Acked(ws, actions, k, id, c)
    ensures StateSays(ws, actions, i, id, ws[i].store.records[id].state)
    ensures WorkflowSays(ws, actions, i, id, ws[i].store.records[id].workflow)
  {
    AtomicBefore(actions, i);
    AtomicRecords(ws, actions, i - 1);
    assert Step(ws[i - 1], actions[i - 1], ws[i]);
    StepRecords(ws[i - 1], actions[i - 1], ws[i]);
    hide Step, Changed, Atomic, ValidEventId;
    forall k: nat, c | k < i
      ensures !Acked(ws, actions, k, id, c)
    {
      if Acked(ws, actions, k, id, c) {
        assert id in ws[k].store.records;
        IntentNeverShrinks(ws, actions, k, i - 1, id);
        assert false;
      }
    }
  }

  // ---- when the journal opens ------------------------------------------------------------------------------

  /** The `k`th action put something into the file. */
  ghost predicate Wrote(ws: seq<World>, actions: seq<Action>, k: nat)
    requires |ws| == |actions| + 1 && k < |actions|
  {
    Attempt(ws[k].store, actions[k]).Some? && actions[k].result != Nothing
  }

  /** An action before `i` wrote a record and then failed before its newline. */
  ghost predicate LeftOpen(ws: seq<World>, actions: seq<Action>, i: nat)
    requires |ws| == |actions| + 1 && i <= |actions|
  {
    exists j: nat | j < i :: Wrote(ws, actions, j) && actions[j].result == NoNewline
  }

  /** No write was torn, none followed one that left its line open, and every record written was valid. */
  ghost predicate CleanSoFar(ws: seq<World>, actions: seq<Action>, i: nat)
    requires |ws| == |actions| + 1 && i <= |actions|
  {
    forall k: nat | k < i && Wrote(ws, actions, k) ::
      && actions[k].result != Torn && !LeftOpen(ws, actions, k)
      && ValidRecord(Attempt(ws[k].store, actions[k]).value)
  }

  /** A step changes the file by the write it attempts, and by nothing else. */
  lemma StepWrites(w: World, action: Action, x: World)
    requires Step(w, action, x)
    ensures var attempt := Attempt(w.store, action);
      x.store.file == if attempt.Some? then Append(w.store.file, attempt.value, action.result) else w.store.file
  {
    hide Append, Changed, Replay, ValidEventId;
  }

  /** The last line is open and not blank exactly when it was left so. */
  lemma AppendDangles(f: File, r: Record, result: WriteResult)
    ensures Dangling(Append(f, r, result)) <==>
        if result == Nothing then Dangling(f) else result == NoNewline || result == Torn
  {
  }

  /** The journal opens after `i` steps of a run exactly when all writes so far were clean. */
  lemma {:induction false} OpensExactlyWhenClean(ws: seq<World>, actions: seq<Action>, i: nat)
    requires Run(ws, actions) && i < |ws|
    ensures Replay(ws[i].store.file.lines).Some? <==> CleanSoFar(ws, actions, i)
    ensures CleanSoFar(ws, actions, i) ==> (Dangling(ws[i].store.file) <==> LeftOpen(ws, actions, i))
  {
    hide Step, Replay, ValidRecord, Dangling, Attempt, CleanSoFar, LeftOpen;
    if i == 0 {
      EmptyOpens(ws, actions);
    } else {
      OpensExactlyWhenClean(ws, actions, i - 1);
      OpenStep(ws[i - 1], actions[i - 1], ws[i]);
      CleanStep(ws, actions, i);
    }
  }

  lemma EmptyOpens(ws: seq<World>, actions: seq<Action>)
    requires |ws| == |actions| + 1 && ws[0].store.file == File([], false)
    ensures Replay(ws[0].store.file.lines).Some? && !Dangling(ws[0].store.file)
    ensures CleanSoFar(ws, actions, 0) && !LeftOpen(ws, actions, 0)
  {
  }

  /** How one step changes whether the journal opens and whether its last line is open. */
  lemma OpenStep(w: World, action: Action, x: World)
    requires Step(w, action, x)
    ensures var f, g, attempt := w.store.file, x.store.file, Attempt(w.store, action);
      var wrote := attempt.Some? && action.result != Nothing;
      && (Replay(g.lines).Some? <==>
            && Replay(f.lines).Some?
            && (wrote ==> action.result != Torn && !Dangling(f) && ValidRecord(attempt.value)))
      && (Dangling(g) <==> if wrote then action.result == NoNewline || action.result == Torn else Dangling(f))
  {
    StepWrites(w, action, x);
    hide Step, Append, Replay, ValidRecord, Dangling, Attempt;
    var f, attempt := w.store.file, Attempt(w.store, action);
    if attempt.Some? {
      AppendDangles(f, attempt.value, action.result);
      if Replay(f.lines).Some? {
        AppendOpensIff(f, attempt.value, action.result);
      } else {
        BrokenStaysBroken(f, attempt.value, action.result);
      }
    }
  }

  lemma CleanStep(ws: seq<World>, actions: seq<Action>, i: nat)
    requires |ws| == |actions| + 1 && 0 < i <= |actions|
    ensures CleanSoFar(ws, actions, i) <==>
        && CleanSoFar(ws, actions, i - 1)
        && (Wrote(ws, actions, i - 1) ==>
              && actions[i - 1].result != Torn && !LeftOpen(ws, actions, i - 1)
              && ValidRecord(Attempt(ws[i - 1].store, actions[i - 1]).value))
    ensures LeftOpen(ws, actions, i) <==>
        LeftOpen(ws, actions, i - 1) || (Wrote(ws, actions, i - 1) && actions[i - 1].result == NoNewline)
  {
    hide ValidRecord, Attempt;
  }

  /** An acknowledged claim is found again by a restart exactly when all writes so far were clean. */
  lemma ClaimSurvivesIff(ws: seq<World>, actions: seq<Action>, i: nat, id: string)
    requires Run(ws, actions) && i < |ws| && id in ws[i].claims
    ensures var found := Replay(ws[i].store.file.lines);
      found.Some? && id in found.value <==> CleanSoFar(ws, actions, i)
  {
    OpensExactlyWhenClean(ws, actions, i);
    RunKeepsInv(ws, actions, i, i);
    hide Replay, CleanSoFar, Run;
  }

  /** A write that fails before its newline, then a claim that is acknowledged: the journal never opens again. */
  lemma AcknowledgedClaimCanBeLost() returns (ws: seq<World>, actions: seq<Action>)
    ensures Run(ws, actions) && actions == [DoClaim("a", 0, NoNewline), DoClaim("b", 0, Landed)]
    ensures ws[2].claims == ["b"] && Replay(ws[2].store.file.lines).None?
  {
    hide Append, Replay, ValidEventId;
    var f1, f2 := OpenLine(Fresh("a", 0), Fresh("b", 0));
    actions := [DoClaim("a", 0, NoNewline), DoClaim("b", 0, Landed)];
    var w0 := World(Store(map[], File([], false)), []);
    var w1 := World(Store(map[], f1), []);
    var w2 := World(Store(map["b" := Fresh("b", 0)], f2), ["b"]);
    ShortIds();
    assert Step(w0, actions[0], w1) && Step(w1, actions[1], w2);
    ws := [w0, w1, w2];
  }

  lemma ShortIds()
    ensures ValidEventId("a") && ValidEventId("b")
  {
  }

  lemma OpenLine(r: Record, q: Record) returns (f: File, g: File)
    ensures f == Append(File([], false), r, NoNewline) && g == Append(f, q, Landed) && Replay(g.lines).None?
  {
    hide ValidRecord;
    f := File([] + [Entry(r)], true);
    g := File(f.lines[..0] + [Broken], false);
  }

  // ---- cancel requests ----------------------------------------------------------------------------------

  /** The action is a landed update of `id` that ends the event. */
  predicate Ends(action: Action, id: string) {
    action.DoUpdate? && action.id == id && action.result == Landed
    && (action.change == Complete || action.change == MarkCanceled)
  }

  /** The action is a landed update of `id` that puts it back to work. */
  predicate Reopens(action: Action, id: string) {
    action.DoUpdate? && action.id == id && action.result == Landed && action.change.SetWorkflow?
  }

  /** Some action of `i..j` ended the event and none after it reopened it. */
  ghost predicate EndedBetween(actions: seq<Action>, id: string, i: nat, j: nat)
    requires i <= j <= |actions|
  {
    exists k: nat :: i <= k < j && Ends(actions[k], id) && forall m: nat | k < m < j :: !Reopens(actions[m], id)
  }

  lemma StateStep(w: World, action: Action, x: World, id: string)
    requires Step(w, action, x) && !action.Restart? && id in w.store.records
    ensures id in x.store.records
    ensures Terminal(x.store.records[id].state) <==>
        Ends(action, id) || (Terminal(w.store.records[id].state) && !Reopens(action, id))
  {
    hide Append, ValidEventId;
  }

  lemma {:induction false} StateBetween(ws: seq<World>, actions: seq<Action>, id: string, i: nat, j: nat)
    requires Run(ws, actions) && i <= j < |ws| && id in ws[i].store.records
    requires forall k | i <= k < j :: !actions[k].Restart?
    requires !Terminal(ws[i].store.records[id].state)
    ensures id in ws[j].store.records
    ensures Terminal(ws[j].store.records[id].state) <==> EndedBetween(actions, id, i, j)
  {
    if i < j {
      StateBetween(ws, actions, id, i, j - 1);
      StateStep(ws[j - 1], actions[j - 1], ws[j], id);
      hide Step, Run;
      if EndedBetween(actions, id, i, j - 1) && !Reopens(actions[j - 1], id) {
        var k: nat :| i <= k < j - 1 && Ends(actions[k], id)
          && forall m: nat | k < m < j - 1 :: !Reopens(actions[m], id);
        assert forall m: nat | k < m < j :: !Reopens(actions[m], id);
      }
    }
  }

  /**
   * A cancel request takes its snapshot at `i` and records its intent at `j`. Told "requested", it
   * has written on an event that was already over exactly when the event ended in between.
   */
  lemma CancelMissesIff(ws: seq<World>, actions: seq<Action>, id: string, i: nat, j: nat, stamp: nat)
    requires Run(ws, actions) && i <= j < |actions|
    requires forall k | i <= k < j :: !actions[k].Restart?
    requires id in ws[i].store.records
    requires actions[j] == DoUpdate(id, RequestCancel, stamp, Landed)
    requires Cancelling(ws[j].store, id, Some(ws[i].store.records[id]), stamp, Landed).outcome == Requested
    ensures ws[j + 1].store == Cancelling(ws[j].store, id, Some(ws[i].store.records[id]), stamp, Landed).store
    ensures id in ws[j + 1].store.records && ws[j + 1].store.records[id].cancelRequested
    ensures Terminal(ws[j + 1].store.records[id].state) <==> EndedBetween(actions, id, i, j)
  {
    StateBetween(ws, actions, id, i, j);
    assert Step(ws[j], actions[j], ws[j + 1]);
    hide Append;
  }

  /** Such a run: the event is completed between the snapshot and the write of a cancel request. */
  lemma CancelCanMiss() returns (ws: seq<World>, actions: seq<Action>)
    ensures Run(ws, actions) && |ws| == 4
    ensures "e" in ws[1].store.records && !Terminal(ws[1].store.records["e"].state)
    ensures actions[2] == DoUpdate("e", RequestCancel, 0, Landed)
    ensures Cancelling(ws[2].store, "e", Some(ws[1].store.records["e"]), 0, Landed).outcome == Requested
    ensures "e" in ws[3].store.records && ws[3].store.records["e"].state == Completed
  {
    actions := [DoClaim("e", 0, Landed), DoUpdate("e", Complete, 0, Landed), DoUpdate("e", RequestCancel, 0, Landed)];
    var w0 := World(Store(map[], File([], false)), []);
    var w1 := World(Claiming(w0.store, "e", 0, Landed).store, ["e"]);
    var w2 := w1.(store := Updating(w1.store, "e", Complete, 0, Landed).store);
    var w3 := w2.(store := Updating(w2.store, "e", RequestCancel, 0, Landed).store);
    ws := [w0, w1, w2, w3];
    assert ValidEventId("e");
    hide Append;
  }
}
