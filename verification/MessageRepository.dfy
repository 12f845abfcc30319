/** The message table: received copies of one packet are folded into a single row that counts them and keeps
    the strongest signal. */
module MessageStore {
  import opened Options
  import Search

  datatype Row = Row(packetId: string, text: string, rssi: Option<real>, snr: Option<real>, rxCount: nat)

  /** A call to save_sent or save_received. */
  datatype Call = Call(sent: bool, packetId: string, text: string, rssi: Option<real>, snr: Option<real>)

  /** Position of the first row with a packet id, or the number of rows. */
  function FirstRow(rows: seq<Row>, packetId: string): (index: nat)
    ensures index <= |rows|
    ensures index < |rows| ==> rows[index].packetId == packetId
    ensures forall i :: 0 <= i < index ==> rows[i].packetId != packetId
  {
    Search.FirstIndex(rows, (row: Row) => row.packetId == packetId)
  }

  function Count(owner: seq<nat>, row: nat): nat {
    if owner == [] then 0
    else Count(owner[..|owner| - 1], row) + if owner[|owner| - 1] == row then 1 else 0
  }

  function TotalCount(rows: seq<Row>): nat {
    if rows == [] then 0 else TotalCount(rows[..|rows| - 1]) + rows[|rows| - 1].rxCount
  }

  /** How each call ended up: the row it was credited to, the call that created each row, and the call whose
      signal each row shows. */
  datatype Ledger = Ledger(owner: seq<nat>, creator: seq<nat>, best: seq<nat>)

  /** Call k is the first of row i's calls to reach their maximum rssi; if none has one, it is the creator. */
  ghost predicate StrongestFirst(calls: seq<Call>, owner: seq<nat>, i: nat, creator: nat, k: nat)
    requires |owner| == |calls|
  {
    && k < |calls| && owner[k] == i
    && if calls[k].rssi.None? then
         k == creator && forall n :: 0 <= n < |calls| && owner[n] == i ==> calls[n].rssi.None?
       else
         forall n :: 0 <= n < |calls| && owner[n] == i && calls[n].rssi.Some? ==>
           if n < k then calls[n].rssi.value < calls[k].rssi.value else calls[n].rssi.value <= calls[k].rssi.value
  }

  /** Call n belongs to a row of its packet id: a received one to the first such row, a sent one or one
      without an id to the row it created. */
  ghost predicate CallPlaced(rows: seq<Row>, c: Call, n: nat, row: nat, creator: seq<nat>) {
    && row < |rows| == |creator| && rows[row].packetId == c.packetId && creator[row] <= n
    && if c.sent || c.packetId == "" then creator[row] == n
       else forall j :: 0 <= j < row ==> rows[j].packetId != c.packetId
  }

  ghost predicate Credited(rows: seq<Row>, calls: seq<Call>, owner: seq<nat>, creator: seq<nat>) {
    && |owner| == |calls| && |creator| == |rows|
    && (forall n :: 0 <= n < |calls| ==> CallPlaced(rows, calls[n], n, owner[n], creator))
    && (forall i :: 0 <= i < |rows| ==>
          creator[i] < |calls| && owner[creator[i]] == i && rows[i].text == calls[creator[i]].text)
    && forall i, j :: 0 <= i < j < |rows| ==> creator[i] < creator[j]
  }

  /** Row i counts its calls and shows the signal of call k, the strongest. */
  ghost predicate RowSums(row: Row, calls: seq<Call>, owner: seq<nat>, i: nat, creator: nat, k: nat)
    requires |owner| == |calls|
  {
    && row.rxCount == Count(owner, i)
    && StrongestFirst(calls, owner, i, creator, k)
    && row.rssi == calls[k].rssi && row.snr == calls[k].snr
  }

  ghost predicate Summarised(rows: seq<Row>, calls: seq<Call>, ledger: Ledger) {
    && |ledger.owner| == |calls| && |ledger.creator| == |rows| == |ledger.best|
    && forall i :: 0 <= i < |rows| ==>
         RowSums(rows[i], calls, ledger.owner, i, ledger.creator[i], ledger.best[i])
  }

  ghost predicate Explains(rows: seq<Row>, calls: seq<Call>, ledger: Ledger) {
    && Credited(rows, calls, ledger.owner, ledger.creator) && Summarised(rows, calls, ledger)
    && TotalCount(rows) == |calls|
  }

  function Inserted(rows: seq<Row>, c: Call): seq<Row> {
    rows + [Row(c.packetId, c.text, c.rssi, c.snr, 1)]
  }

  predicate BetterSignal(row: Row, c: Call) {
    c.rssi.Some? && (row.rssi.None? || c.rssi.value > row.rssi.value)
  }

  function Bumped(rows: seq<Row>, c: Call, i: nat): seq<Row>
    requires i < |rows|
  {
    var row := rows[i].(rxCount := rows[i].rxCount + 1);
    rows[i := if BetterSignal(rows[i], c) then row.(rssi := c.rssi, snr := c.snr) else row]
  }

  /** Whether a call inserts a row: sent messages and empty ids always do, others only for a new packet id. */
  predicate NeedsRow(rows: seq<Row>, c: Call) {
    c.sent || c.packetId == "" || FirstRow(rows, c.packetId) == |rows|
  }

  function Save(rows: seq<Row>, c: Call): seq<Row> {
    if NeedsRow(rows, c) then Inserted(rows, c) else Bumped(rows, c, FirstRow(rows, c.packetId))
  }

  /** The table after a series of calls, one after the other, on an empty one. */
  function Table(calls: seq<Call>): seq<Row> {
    if calls == [] then [] else Save(Table(calls[..|calls| - 1]), calls[|calls| - 1])
  }

  lemma CountAppend(owner: seq<nat>, last: nat, row: nat)
    ensures Count(owner + [last], row) == Count(owner, row) + if last == row then 1 else 0
  {
    assert (owner + [last])[..|owner|] == owner;
  }

  lemma {:induction false} CountNone(owner: seq<nat>, row: nat)
    requires forall n :: 0 <= n < |owner| ==> owner[n] != row
    ensures Count(owner, row) == 0
  {
    if owner == [] {
    } else {
      CountNone(owner[..|owner| - 1], row);
    }
  }

  lemma {:induction false} TotalOfUpdate(rows: seq<Row>, i: nat, row: Row)
    requires i < |rows|
    ensures TotalCount(rows[i := row]) == TotalCount(rows) - rows[i].rxCount + row.rxCount
  {
    var front := rows[..|rows| - 1];
    if i < |rows| - 1 {
      TotalOfUpdate(front, i, row);
      assert rows[i := row][..|rows| - 1] == front[i := row];
    } else {
      assert rows[i := row][..|rows| - 1] == front;
    }
  }

  function LedgerInsert(ledger: Ledger, calls: seq<Call>, rows: seq<Row>): Ledger {
    Ledger(ledger.owner + [|rows|], ledger.creator + [|calls|], ledger.best + [|calls|])
  }

  function LedgerBump(ledger: Ledger, calls: seq<Call>, rows: seq<Row>, c: Call, i: nat): Ledger
    requires i < |rows| == |ledger.best|
  {
    Ledger(ledger.owner + [i], ledger.creator,
           if BetterSignal(rows[i], c) then ledger.best[i := |calls|] else ledger.best)
  }

  lemma InsertCredits(rows: seq<Row>, calls: seq<Call>, owner: seq<nat>, creator: seq<nat>, c: Call)
    requires Credited(rows, calls, owner, creator)
    requires NeedsRow(rows, c)
    ensures Credited(Inserted(rows, c), calls + [c], owner + [|rows|], creator + [|calls|])
  {
    var rows', owner', creator' := Inserted(rows, c), owner + [|rows|], creator + [|calls|];
    forall n | 0 <= n < |calls| ensures CallPlaced(rows', calls[n], n, owner'[n], creator') {
      assert CallPlaced(rows, calls[n], n, owner[n], creator);
    }
    assert CallPlaced(rows', c, |calls|, |rows|, creator');
  }

  lemma BumpCredits(rows: seq<Row>, calls: seq<Call>, owner: seq<nat>, creator: seq<nat>, c: Call)
    requires Credited(rows, calls, owner, creator)
    requires !NeedsRow(rows, c)
    ensures var i := FirstRow(rows, c.packetId);
            Credited(Bumped(rows, c, i), calls + [c], owner + [i], creator)
  {
    var i := FirstRow(rows, c.packetId);
    var rows', owner' := Bumped(rows, c, i), owner + [i];
    forall n | 0 <= n < |calls| ensures CallPlaced(rows', calls[n], n, owner'[n], creator) {
      assert CallPlaced(rows, calls[n], n, owner[n], creator);
    }
    assert CallPlaced(rows', c, |calls|, i, creator);
  }

  /** A further call leaves a row's sums alone, or is added to them. */
  lemma OtherRowSums(row: Row, calls: seq<Call>, owner: seq<nat>, i: nat, creator: nat, k: nat, c: Call, other: nat)
    requires |owner| == |calls| && RowSums(row, calls, owner, i, creator, k) && other != i
    ensures RowSums(row, calls + [c], owner + [other], i, creator, k)
  {
    CountAppend(owner, other, i);
  }

  lemma BumpedRowSums(rows: seq<Row>, calls: seq<Call>, owner: seq<nat>, i: nat, creator: nat, k: nat, c: Call)
    requires i < |rows| && |owner| == |calls| && RowSums(rows[i], calls, owner, i, creator, k)
    ensures RowSums(Bumped(rows, c, i)[i], calls + [c], owner + [i], i, creator,
                    if BetterSignal(rows[i], c) then |calls| else k)
  {
    CountAppend(owner, i, i);
  }

  lemma NewRowSums(calls: seq<Call>, owner: seq<nat>, i: nat, c: Call)
    requires |owner| == |calls| && forall n :: 0 <= n < |owner| ==> owner[n] != i
    ensures RowSums(Row(c.packetId, c.text, c.rssi, c.snr, 1), calls + [c], owner + [i], i, |calls|, |calls|)
  {
    CountAppend(owner, i, i);
    CountNone(owner, i);
  }

  lemma InsertSummarises(rows: seq<Row>, calls: seq<Call>, ledger: Ledger, c: Call)
    requires Credited(rows, calls, ledger.owner, ledger.creator) && Summarised(rows, calls, ledger)
    ensures Summarised(Inserted(rows, c), calls + [c], LedgerInsert(ledger, calls, rows))
  {
    var rows', ledger' := Inserted(rows, c), LedgerInsert(ledger, calls, rows);
    forall i | 0 <= i < |rows'|
      ensures RowSums(rows'[i], calls + [c], ledger'.owner, i, ledger'.creator[i], ledger'.best[i])
    {
      if i < |rows| {
        OtherRowSums(rows[i], calls, ledger.owner, i, ledger.creator[i], ledger.best[i], c, |rows|);
      } else {
        assert forall n :: 0 <= n < |calls| ==> CallPlaced(rows, calls[n], n, ledger.owner[n], ledger.creator);
        NewRowSums(calls, ledger.owner, i, c);
      }
    }
  }

  lemma InsertExplained(rows: seq<Row>, calls: seq<Call>, ledger: Ledger, c: Call)
    requires Explains(rows, calls, ledger) && NeedsRow(rows, c)
    ensures Explains(Inserted(rows, c), calls + [c], LedgerInsert(ledger, calls, rows))
  {
    InsertCredits(rows, calls, ledger.owner, ledger.creator, c);
    InsertSummarises(rows, calls, ledger, c);
    assert Inserted(rows, c)[..|rows|] == rows;
  }

  lemma BumpSummarises(rows: seq<Row>, calls: seq<Call>, ledger: Ledger, c: Call, i: nat)
    requires Summarised(rows, calls, ledger) && i < |rows|
    ensures Summarised(Bumped(rows, c, i), calls + [c], LedgerBump(ledger, calls, rows, c, i))
  {
    var rows', ledger' := Bumped(rows, c, i), LedgerBump(ledger, calls, rows, c, i);
    forall k | 0 <= k < |rows'|
      ensures RowSums(rows'[k], calls + [c], ledger'.owner, k, ledger'.creator[k], ledger'.best[k])
    {
      if k != i {
        OtherRowSums(rows[k], calls, ledger.owner, k, ledger.creator[k], ledger.best[k], c, i);
      } else {
        BumpedRowSums(rows, calls, ledger.owner, i, ledger.creator[i], ledger.best[i], c);
      }
    }
  }

  lemma BumpExplained(rows: seq<Row>, calls: seq<Call>, ledger: Ledger, c: Call)
    requires Explains(rows, calls, ledger)
    requires !NeedsRow(rows, c)
    ensures var i := FirstRow(rows, c.packetId);
            Explains(Bumped(rows, c, i), calls + [c], LedgerBump(ledger, calls, rows, c, i))
  {
    var i := FirstRow(rows, c.packetId);
    BumpCredits(rows, calls, ledger.owner, ledger.creator, c);
    BumpSummarises(rows, calls, ledger, c, i);
    TotalOfUpdate(rows, i, Bumped(rows, c, i)[i]);
  }

  /** Some ledger accounts for every table by the calls that led to it. */
  lemma {:induction false} TableExplained(calls: seq<Call>) returns (ledger: Ledger)
    ensures Explains(Table(calls), calls, ledger)
  {
    if calls == [] {
      ledger := Ledger([], [], []);
    } else {
      var front, c := calls[..|calls| - 1], calls[|calls| - 1];
      assert front + [c] == calls;
      var before := TableExplained(front);
      var rows := Table(front);
      if NeedsRow(rows, c) {
        InsertExplained(rows, front, before, c);
        ledger := LedgerInsert(before, front, rows);
      } else {
        BumpExplained(rows, front, before, c);
        ledger := LedgerBump(before, front, rows, c, FirstRow(rows, c.packetId));
      }
    }
  }

  /** The two UPDATE statements for a packet that is already stored: one more receipt, and a signal at least as
      strong as the stored one and the new one, the stored one unless the new one is strictly stronger. */
  method UpdateRow(rows: seq<Row>, c: Call, existing: nat) returns (updated: seq<Row>)
    requires existing < |rows|
    ensures |updated| == |rows| && forall k :: 0 <= k < |rows| && k != existing ==> updated[k] == rows[k]
    ensures var (before, after) := (rows[existing], updated[existing]);
            && after.packetId == before.packetId && after.text == before.text
            && after.rxCount == before.rxCount + 1
            && AtLeast(after.rssi, before.rssi) && AtLeast(after.rssi, c.rssi)
            && (AtLeast(before.rssi, c.rssi) ==> after.rssi == before.rssi && after.snr == before.snr)
            && (!AtLeast(before.rssi, c.rssi) ==> after.rssi == c.rssi && after.snr == c.snr)
  {
    var row := rows[existing];
    var newCount := row.rxCount + 1;
    var betterSignal := c.rssi.Some? && (row.rssi.None? || c.rssi.value > row.rssi.value);
    if betterSignal {
      updated := rows[existing := row.(rssi := c.rssi, snr := c.snr, rxCount := newCount)];
    } else {
      updated := rows[existing := row.(rxCount := newCount)];
    }
  }

  /** One signal strength is no weaker than another; any is stronger than none. */
  predicate AtLeast(strength: Option<real>, other: Option<real>) {
    other.None? || (strength.Some? && strength.value >= other.value)
  }

  // Rows without a packet id

  function Nameless(rows: seq<Row>): seq<Row> {
    if rows == [] then []
    else Nameless(rows[..|rows| - 1]) + if rows[|rows| - 1].packetId == "" then [rows[|rows| - 1]] else []
  }

  /** What the calls without a packet id would leave if there were no others: a row each, in order. */
  function NamelessCalls(calls: seq<Call>): seq<Row> {
    if calls == [] then []
    else
      var c := calls[|calls| - 1];
      NamelessCalls(calls[..|calls| - 1]) + if c.packetId == "" then [Row("", c.text, c.rssi, c.snr, 1)] else []
  }

  lemma {:induction false} NamelessOfUpdate(rows: seq<Row>, i: nat, row: Row)
    requires i < |rows| && rows[i].packetId != "" && row.packetId != ""
    ensures Nameless(rows[i := row]) == Nameless(rows)
  {
    var front := rows[..|rows| - 1];
    if i == |rows| - 1 {
      assert rows[i := row][..|rows| - 1] == front;
    } else {
      NamelessOfUpdate(front, i, row);
      assert rows[i := row][..|rows| - 1] == front[i := row];
    }
  }

  /** The rows without a packet id are exactly the calls without one, in order, each with its own signal. */
  lemma {:induction false} NamelessRowsAreTheirCalls(calls: seq<Call>)
    ensures Nameless(Table(calls)) == NamelessCalls(calls)
  {
    if calls == [] {
    } else {
      var front, c := calls[..|calls| - 1], calls[|calls| - 1];
      NamelessRowsAreTheirCalls(front);
      var rows := Table(front);
      if NeedsRow(rows, c) {
        assert Inserted(rows, c)[..|rows|] == rows;
      } else {
        var i := FirstRow(rows, c.packetId);
        NamelessOfUpdate(rows, i, Bumped(rows, c, i)[i]);
      }
    }
  }

  /** Call k is the first receipt of a packet to reach its maximum rssi, or its first receipt if none has one. */
  ghost predicate StrongestReceipt(calls: seq<Call>, packetId: string, k: nat) {
    && k < |calls| && calls[k].packetId == packetId
    && forall n :: 0 <= n < |calls| && n != k && calls[n].packetId == packetId ==>
         if calls[k].rssi.None? then calls[n].rssi.None? && k < n
         else calls[n].rssi.Some? ==>
           if n < k then calls[n].rssi.value < calls[k].rssi.value else calls[n].rssi.value <= calls[k].rssi.value
  }

  /** In a run of receipts only, row i's calls are exactly the receipts of its packet id, or its creator alone. */
  lemma RowOwnsItsReceipts(rows: seq<Row>, calls: seq<Call>, ledger: Ledger, i: nat, n: nat)
    requires Explains(rows, calls, ledger) && forall n :: 0 <= n < |calls| ==> !calls[n].sent
    requires i < |rows| && n < |calls|
    ensures ledger.owner[n] == i <==>
            if rows[i].packetId == "" then n == ledger.creator[i] else calls[n].packetId == rows[i].packetId
  {
    assert CallPlaced(rows, calls[n], n, ledger.owner[n], ledger.creator);
    var m := ledger.creator[i];
    assert CallPlaced(rows, calls[m], m, ledger.owner[m], ledger.creator);
  }

  lemma StrongestOfRowIsOfPacket(
    calls: seq<Call>, owner: seq<nat>, i: nat, creator: nat, k: nat, packetId: string)
    requires |owner| == |calls| && StrongestFirst(calls, owner, i, creator, k)
    requires forall n :: 0 <= n < |calls| ==> (owner[n] == i <==> calls[n].packetId == packetId)
    requires forall n :: 0 <= n < |calls| && owner[n] == i ==> creator <= n
    ensures StrongestReceipt(calls, packetId, k)
  {
  }

  /** A row counts every receipt of its packet and shows the signal of the strongest; a row without a packet id
      stands for a single receipt and shows its signal. */
  ghost predicate Folds(row: Row, calls: seq<Call>) {
    if row.packetId == "" then row.rxCount == 1 && exists k :: StandsFor(row, calls, k)
    else row.rxCount == Receipts(calls, row.packetId) && exists k :: Shows(row, calls, k)
  }

  ghost predicate StandsFor(row: Row, calls: seq<Call>, k: nat) {
    && k < |calls| && calls[k].packetId == ""
    && row.text == calls[k].text && row.rssi == calls[k].rssi && row.snr == calls[k].snr
  }

  ghost predicate Shows(row: Row, calls: seq<Call>, k: nat) {
    StrongestReceipt(calls, row.packetId, k) && row.rssi == calls[k].rssi && row.snr == calls[k].snr
  }

  /** After any series of receipts, every row folds the receipts of its packet. */
  lemma EveryRowFolds(calls: seq<Call>, i: nat)
    requires i < |Table(calls)| && forall n :: 0 <= n < |calls| ==> !calls[n].sent
    ensures Folds(Table(calls)[i], calls)
  {
    var ledger := TableExplained(calls);
    RowFolds(Table(calls), calls, ledger, i);
  }

  lemma RowFolds(rows: seq<Row>, calls: seq<Call>, ledger: Ledger, i: nat)
    requires Explains(rows, calls, ledger) && i < |rows| && forall n :: 0 <= n < |calls| ==> !calls[n].sent
    ensures Folds(rows[i], calls)
  {
    var owner, creator, k := ledger.owner, ledger.creator[i], ledger.best[i];
    assert RowSums(rows[i], calls, owner, i, creator, k);
    forall n | 0 <= n < |calls|
      ensures owner[n] == i <==>
              if rows[i].packetId == "" then n == creator else calls[n].packetId == rows[i].packetId
      ensures owner[n] == i ==> creator <= n
    {
      RowOwnsItsReceipts(rows, calls, ledger, i, n);
      assert CallPlaced(rows, calls[n], n, owner[n], ledger.creator);
    }
    if rows[i].packetId == "" {
      CountOne(owner, i, creator);
      assert CallPlaced(rows, calls[k], k, owner[k], ledger.creator);
      assert StandsFor(rows[i], calls, k);
    } else {
      CountIsReceipts(calls, owner, rows[i].packetId, i);
      StrongestOfRowIsOfPacket(calls, owner, i, creator, k, rows[i].packetId);
      assert Shows(rows[i], calls, k);
    }
  }

  /** ... no two rows share a packet id, and every receipt's packet has a row. */
  lemma OneRowPerPacket(calls: seq<Call>, i: nat, j: nat, n: nat)
    requires forall n :: 0 <= n < |calls| ==> !calls[n].sent
    ensures var rows := Table(calls);
            i < j < |rows| && rows[i].packetId == rows[j].packetId ==> rows[i].packetId == ""
    ensures n < |calls| ==> FirstRow(Table(calls), calls[n].packetId) < |Table(calls)|
  {
    var rows := Table(calls);
    var ledger := TableExplained(calls);
    if i < j < |rows| {
      RowOwnsItsReceipts(rows, calls, ledger, i, ledger.creator[j]);
      RowOwnsItsReceipts(rows, calls, ledger, j, ledger.creator[j]);
    }
    if n < |calls| {
      assert CallPlaced(rows, calls[n], n, ledger.owner[n], ledger.creator);
    }
  }

  /** Conservation, with sent messages included: the counts of all rows add up to the number of calls. */
  lemma CountsAddUp(calls: seq<Call>)
    ensures TotalCount(Table(calls)) == |calls|
  {
    var ledger := TableExplained(calls);
  }

  function Receipts(calls: seq<Call>, packetId: string): nat {
    if calls == [] then 0
    else Receipts(calls[..|calls| - 1], packetId) + if calls[|calls| - 1].packetId == packetId then 1 else 0
  }

  lemma {:induction false} CountOne(owner: seq<nat>, row: nat, only: nat)
    requires forall n :: 0 <= n < |owner| ==> (owner[n] == row <==> n == only)
    ensures Count(owner, row) == if only < |owner| then 1 else 0
  {
    if owner == [] {
    } else {
      CountOne(owner[..|owner| - 1], row, only);
    }
  }

  lemma {:induction false} CountIsReceipts(calls: seq<Call>, owner: seq<nat>, packetId: string, row: nat)
    requires |owner| == |calls|
    requires forall n :: 0 <= n < |calls| ==> (owner[n] == row <==> calls[n].packetId == packetId)
    ensures Count(owner, row) == Receipts(calls, packetId)
  {
    if calls == [] {
    } else {
      CountIsReceipts(calls[..|calls| - 1], owner[..|owner| - 1], packetId, row);
    }
  }

  class MessageRepository {
    var rows: seq<Row>
    ghost var calls: seq<Call>

    ghost predicate Valid()
      reads this
    {
      rows == Table(calls)
    }

    constructor ()
      ensures Valid() && rows == [] && calls == []
    {
      rows, calls := [], [];
    }

    method SaveSent(text: string, packetId: string) returns (id: nat)
      requires Valid()
      modifies this
      ensures Valid() && calls == old(calls) + [Call(true, packetId, text, None, None)]
      ensures rows == old(rows) + [Row(packetId, text, None, None, 1)] && id == |rows|
    {
      assert (calls + [Call(true, packetId, text, None, None)])[..|calls|] == calls;
      rows := rows + [Row(packetId, text, None, None, 1)];
      calls := calls + [Call(true, packetId, text, None, None)];
      id := |rows|;
    }

    /** Row ids count from 1 in insertion order. */
    method SaveReceived(text: string, packetId: string, rssi: Option<real>, snr: Option<real>)
      returns (id: nat, duplicate: bool)
      requires Valid()
      modifies this
      ensures Valid() && calls == old(calls) + [Call(false, packetId, text, rssi, snr)]
      ensures duplicate <==> packetId != "" && exists i :: 0 <= i < |old(rows)| && old(rows)[i].packetId == packetId
      ensures id == if duplicate then FirstRow(old(rows), packetId) + 1 else |rows|
      ensures rows == if duplicate then Bumped(old(rows), Call(false, packetId, text, rssi, snr), id - 1)
                      else old(rows) + [Row(packetId, text, rssi, snr, 1)]
    {
      var c := Call(false, packetId, text, rssi, snr);
      assert (calls + [c])[..|calls|] == calls;
      calls := calls + [c];
      if packetId != "" {
        var existing := FirstRow(rows, packetId);
        if existing < |rows| {
          rows := UpdateRow(rows, c, existing);
          assert rows == Bumped(old(rows), c, existing);
          return existing + 1, true;
        }
      }
      rows := rows + [Row(packetId, text, rssi, snr, 1)];
      return |rows|, false;
    }
  }
}
