/** A channel's messages in the database: inserted once each in any order, and read back at a start. */
module MessageMirror {
  import opened Prelude
  import opened Text
  import opened Sequences
  import opened ChannelLog
  import opened Channels

  const I64_MAX := 0x7FFF_FFFF_FFFF_FFFF

  type Table = map<nat, Message>

  /** `insert_message`: a number that is taken keeps its row. */
  function InsertRow(table: Table, m: Message): Table {
    if m.number > I64_MAX || m.number in table then table else table[m.number := m]
  }

  /** The rows of one channel. */
  class MessageTable {
    var rows: Table

    constructor ()
      ensures rows == map[]
    {
      rows := map[];
    }

    method InsertMessage(m: Message) returns (ok: bool)
      modifies this
      ensures rows == InsertRow(old(rows), m)
      ensures ok <==> m.number <= I64_MAX
    {
      if m.number > I64_MAX {
        return false;
      }
      if m.number !in rows {
        rows := rows[m.number := m];
      }
      return true;
    }
  }

  function InsertAll(table: Table, messages: seq<Message>): Table {
    if messages == [] then table
    else InsertRow(InsertAll(table, messages[..|messages| - 1]), messages[|messages| - 1])
  }

  ghost predicate DistinctNumbers(messages: seq<Message>) {
    forall m, n | m in messages && n in messages && m.number == n.number :: m == n
  }

  /** A row is never overwritten; a free number gets the message that carries it. */
  lemma {:induction false} RowsAreFinal(table: Table, messages: seq<Message>, number: nat)
    ensures number in table ==>
        number in InsertAll(table, messages) && InsertAll(table, messages)[number] == table[number]
    ensures number !in table && number in InsertAll(table, messages) ==>
        InsertAll(table, messages)[number] in messages && InsertAll(table, messages)[number].number == number <= I64_MAX
    ensures forall m | m in messages && m.number == number <= I64_MAX :: number in InsertAll(table, messages)
  {
    if messages != [] {
      var before, last := messages[..|messages| - 1], messages[|messages| - 1];
      RowsAreFinal(table, before, number);
      assert forall m :: m in messages <==> m in before || m == last;
    }
  }

  /** The same messages in another order, or repeated, leave the same table. */
  lemma OrderIrrelevant(table: Table, messages: seq<Message>, others: seq<Message>)
    requires DistinctNumbers(messages)
    requires forall m :: m in messages <==> m in others
    ensures InsertAll(table, messages) == InsertAll(table, others)
  {
    forall number: nat
      ensures number in InsertAll(table, messages) <==> number in InsertAll(table, others)
      ensures number in InsertAll(table, messages) ==>
          InsertAll(table, messages)[number] == InsertAll(table, others)[number]
    {
      RowsAreFinal(table, messages, number);
      RowsAreFinal(table, others, number);
    }
  }

  /** A message that arrives is stored as it is exactly when its number fits the column and was free. */
  lemma StoredIff(table: Table, messages: seq<Message>, m: Message)
    requires DistinctNumbers(messages) && m in messages
    ensures m.number in InsertAll(table, messages) && InsertAll(table, messages)[m.number] == m <==>
        if m.number in table then table[m.number] == m else m.number <= I64_MAX
  {
    RowsAreFinal(table, messages, m.number);
    hide InsertAll;
  }

  // ---- the start ----------------------------------------------------------------------------------

  /** A message as the table holds it; the query measures the stored metadata. */
  datatype Row = Row(message: Message, metaColumnBytes: nat)

  predicate Small(row: Row, contentLimit: nat) {
    Utf8Len(row.message.content) <= contentLimit && row.metaColumnBytes <= contentLimit
  }

  ghost predicate InOrder(rows: seq<Row>) {
    forall i, j | 0 <= i < j < |rows| :: rows[i].message.number < rows[j].message.number
  }

  function SmallOnes(rows: seq<Row>, contentLimit: nat): seq<Message> {
    if rows == [] then []
    else
      SmallOnes(rows[..|rows| - 1], contentLimit)
      + if Small(rows[|rows| - 1], contentLimit) then [rows[|rows| - 1].message] else []
  }

  /** The message is that of a row that is small enough. */
  ghost predicate FromSmall(rows: seq<Row>, contentLimit: nat, m: Message) {
    exists i | 0 <= i < |rows| :: rows[i].message == m && Small(rows[i], contentLimit)
  }

  lemma FromSmallStep(rows: seq<Row>, contentLimit: nat, m: Message)
    requires rows != []
    ensures var n := |rows| - 1;
      FromSmall(rows, contentLimit, m) <==>
        FromSmall(rows[..n], contentLimit, m) || (rows[n].message == m && Small(rows[n], contentLimit))
  {
    hide Small;
    var n := |rows| - 1;
    if i :| 0 <= i < |rows[..n]| && rows[..n][i].message == m && Small(rows[..n][i], contentLimit) {
      assert rows[i] == rows[..n][i];
    }
    if i :| 0 <= i < n && rows[i].message == m && Small(rows[i], contentLimit) {
      assert rows[..n][i] == rows[i];
    }
  }

  lemma {:induction false} SmallOnesNumbered(rows: seq<Row>, contentLimit: nat)
    requires InOrder(rows)
    ensures Numbered(SmallOnes(rows, contentLimit))
    ensures forall m :: m in SmallOnes(rows, contentLimit) <==> FromSmall(rows, contentLimit, m)
  {
    hide Small;
    if rows != [] {
      var n := |rows| - 1;
      var before := SmallOnes(rows[..n], contentLimit);
      SmallOnesNumbered(rows[..n], contentLimit);
      forall m
        ensures m in SmallOnes(rows, contentLimit) <==> FromSmall(rows, contentLimit, m)
      {
        FromSmallStep(rows, contentLimit, m);
      }
      forall i | 0 <= i < |before|
        ensures before[i].number < rows[n].message.number
      {
        assert before[i] in before;
        assert FromSmall(rows[..n], contentLimit, before[i]);
      }
    }
  }

  /** The newest rows the window can hold, of the rows in number order. */
  function NewestRows(rows: seq<Row>, limit: nat): seq<Row> {
    if |rows| <= limit then rows else rows[|rows| - limit..]
  }

  /** Sorting what is in number order changes nothing. */
  lemma SortedAlready(rows: seq<Message>)
    requires Numbered(rows)
    ensures DistinctKeys(ByNumber(), rows) && Sort(ByNumber(), rows) == rows
  {
    hide Sort;
    forall i, j | 0 <= i < j < |rows|
      ensures CompareSeq(ByNumber()(rows[i]), ByNumber()(rows[j])).Less?
      ensures ByNumber()(rows[i]) != ByNumber()(rows[j])
    {
      CompareSingle(rows[i].number, rows[j].number);
      assert [rows[i].number][0] != [rows[j].number][0];
    }
    SortAscending(ByNumber(), rows);
    AscendingUnique(ByNumber(), Sort(ByNumber(), rows), rows);
  }

  /** Collects the messages of the rows that are small enough. */
  method CollectSmall(rows: seq<Row>, contentLimit: nat) returns (kept: seq<Message>)
    ensures kept == SmallOnes(rows, contentLimit)
  {
    hide Small;
    kept := [];
    for i := 0 to |rows|
      invariant kept == SmallOnes(rows[..i], contentLimit)
    {
      assert rows[..i + 1][..i] == rows[..i];
      if Small(rows[i], contentLimit) {
        kept := kept + [rows[i].message];
      }
    }
    assert rows[..|rows|] == rows;
  }

  /** What is kept is in order, below the last row, and sorted already. */
  lemma KeptBelowLast(rows: seq<Row>, limit: nat, contentLimit: nat)
    requires InOrder(rows) && rows != []
    ensures var kept := SmallOnes(NewestRows(rows, limit), contentLimit);
      && DistinctKeys(ByNumber(), kept) && Sort(ByNumber(), kept) == kept
      && forall m | m in kept :: m.number <= rows[|rows| - 1].message.number
  {
    hide Small, SmallOnes, Sort, InOrder, Numbered, DistinctKeys, NewestRows;
    var newest := NewestRows(rows, limit);
    NewestInOrder(rows, limit);
    SmallOnesNumbered(newest, contentLimit);
    SortedAlready(SmallOnes(newest, contentLimit));
  }

  /** What is restored: the messages of the last rows, as many as the window holds, whose sizes are within the limit. */
  lemma RestoredMeans(rows: seq<Row>, limit: nat, contentLimit: nat, i: nat)
    requires InOrder(rows) && i < |rows|
    ensures rows[i].message in SmallOnes(NewestRows(rows, limit), contentLimit) <==>
        && |rows| - i <= limit
        && Utf8Len(rows[i].message.content) <= contentLimit && rows[i].metaColumnBytes <= contentLimit
  {
    hide Utf8Len, SmallOnes;
    var newest, m := NewestRows(rows, limit), rows[i].message;
    var d := |rows| - |newest|;
    assert newest == rows[d..];
    NewestInOrder(rows, limit);
    SmallOnesNumbered(newest, contentLimit);
    if i >= d {
      assert newest[i - d] == rows[i];
    }
    if k :| 0 <= k < |newest| && newest[k].message == m && Small(newest[k], contentLimit) {
      assert newest[k] == rows[d + k];
    }
  }

  lemma NewestInOrder(rows: seq<Row>, limit: nat)
    requires InOrder(rows) && rows != []
    ensures var newest := NewestRows(rows, limit);
      && InOrder(newest)
      && forall i | 0 <= i < |newest| :: newest[i].message.number <= rows[|rows| - 1].message.number
  {
    var newest := NewestRows(rows, limit);
    var d := |rows| - |newest|;
    assert newest == rows[d..];
    forall i, j | 0 <= i < j < |newest|
      ensures newest[i].message.number < newest[j].message.number
    {
      assert newest[i] == rows[d + i] && newest[j] == rows[d + j];
    }
    forall i | 0 <= i < |newest|
      ensures newest[i].message.number <= rows[|rows| - 1].message.number
    {
      assert newest[i] == rows[d + i];
      BelowLast(rows, d + i);
    }
  }

  lemma BelowLast(rows: seq<Row>, i: nat)
    requires InOrder(rows) && i < |rows|
    ensures rows[i].message.number <= rows[|rows| - 1].message.number
  {
  }

  /** Restores a fresh channel from its rows; a channel without rows stays fresh. */
  method LoadMessages(channel: Channel, rows: seq<Row>) returns (restored: nat)
    requires channel.Valid() && channel.events == [] && channel.restored == [] && channel.nextNumber == 1
    requires InOrder(rows)
    modifies channel`messages, channel`historyBytes, channel`nextNumber, channel`messageCount, channel`restored,
      channel`base
    ensures channel.Valid()
    ensures forall row | row in rows :: row.message.number < channel.base
    ensures rows != [] ==> channel.nextNumber == rows[|rows| - 1].message.number + 1
    ensures channel.restored == SmallOnes(NewestRows(rows, channel.limit), channel.maxContentBytes)
    ensures rows != [] ==> channel.messageCount == Max(|rows|, |channel.messages|)
  {
    hide Channel.Valid, SmallOnes, Sort, Evicted, DistinctKeys;
    if rows == [] {
      assert SmallOnes([], channel.maxContentBytes) == [] by { NothingSmall(channel.maxContentBytes); }
      return 0;
    }
    var kept := CollectSmall(NewestRows(rows, channel.limit), channel.maxContentBytes);
    KeptBelowLast(rows, channel.limit, channel.maxContentBytes);
    channel.RestoreMessages(kept, |rows|, rows[|rows| - 1].message.number);
    return |kept|;
  }

  lemma NothingSmall(contentLimit: nat)
    ensures SmallOnes([], contentLimit) == []
  {
  }

  /** Messages with numbers the table has not reached: each one that arrives is stored as it is. */
  lemma NewMessagesAreStored(table: Table, messages: seq<Message>, next: nat, m: Message)
    requires forall number | number in table :: number < next
    requires forall n | n in messages :: next <= n.number
    requires DistinctNumbers(messages) && m in messages
    ensures m.number in InsertAll(table, messages) && InsertAll(table, messages)[m.number] == m <==> m.number <= I64_MAX
  {
    StoredIff(table, messages, m);
  }

  /**
   * A channel that started above every row of the table, as `LoadMessages` leaves it, and has worked
   * since: of the messages it broadcast, whichever arrive, in whatever order, are stored as they are.
   */
  lemma RestoredChannelIsMirrored(channel: Channel, table: Table, landed: seq<Message>, m: Message)
    requires channel.Valid() && forall number | number in table :: number < channel.base
    requires forall n | n in landed :: n in PostedIn(channel.events)
    requires m in landed
    ensures m.number in InsertAll(table, landed) && InsertAll(table, landed)[m.number] == m <==> m.number <= I64_MAX
  {
    hide PostedIn, IsLongestFittingSuffix, Bytes, Truthful, MembersOf, InsertAll;
    assert PostedIn(channel.events) == channel.Log()[|channel.restored|..];
    NewMessagesAreStored(table, landed, channel.base, m);
  }
}
