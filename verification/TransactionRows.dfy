/**
  The rows of the transaction table: one row per transfer, and an index from transaction to rows
  that is built up by notifications, which may come out of order and more than once.
 */
module TransactionRows {
  import opened Basics

  /** What the wallet says about a transaction. */
  datatype Transaction = Transaction(firstTransfer: nat, transferCount: nat)

  type Wallet = nat -> Option<Transaction>

  /** WALLET_LEGACY_INVALID_TRANSFER_ID. */
  const INVALID_TRANSFER: nat := 0xFFFF_FFFF_FFFF_FFFF

  datatype Table = Table(transfers: seq<(nat, nat)>, index: map<nat, (nat, nat)>)

  const EMPTY := Table([], map[])

  /** The rows of one transaction: its transfers, or one row without a transfer. */
  function RowsOf(id: nat, t: Transaction): (rows: seq<(nat, nat)>)
    ensures |rows| > 0
  {
    if t.transferCount > 0 then seq(t.transferCount, k requires 0 <= k => (id, t.firstTransfer + k))
    else [(id, INVALID_TRANSFER)]
  }

  function AppendOne(m: Table, id: nat, wallet: Wallet): Table {
    match wallet(id)
    case None => m
    case Some(t) => Table(m.transfers + RowsOf(id, t), m.index[id := (|m.transfers|, |RowsOf(id, t)|)])
  }

  /** Transactions `lo` to `hi - 1`, in order. */
  function AppendRange(m: Table, lo: nat, hi: nat, wallet: Wallet): Table
    decreases hi - lo
  {
    if lo >= hi then m else AppendRange(AppendOne(m, lo, wallet), lo + 1, hi, wallet)
  }

  /** One notification. */
  function Append(m: Table, id: nat, wallet: Wallet): Table {
    if id in m.index then m else AppendRange(m, |m.index|, id + 1, wallet)
  }

  function Reload(count: nat, wallet: Wallet): Table {
    AppendRange(EMPTY, 0, count, wallet)
  }

  datatype Op = Notify(id: nat) | ReloadAll(count: nat) | Reset

  function Apply(m: Table, op: Op, wallet: Wallet): Table {
    match op
    case Notify(id) => Append(m, id, wallet)
    case ReloadAll(count) => Reload(count, wallet)
    case Reset => EMPTY
  }

  function ApplyAll(m: Table, ops: seq<Op>, wallet: Wallet): Table
    decreases |ops|
  {
    if ops == [] then m else ApplyAll(Apply(m, ops[0], wallet), ops[1..], wallet)
  }

  // ----- the model object -----

  class TransactionsModel {
    var transfers: seq<(nat, nat)>
    var index: map<nat, (nat, nat)>

    function View(): Table
      reads this
    {
      Table(transfers, index)
    }

    constructor ()
      ensures View() == EMPTY
    {
      transfers, index := [], map[];
    }

    method AppendTransactionRows(id: nat, wallet: Wallet, count: nat) returns (count': nat)
      modifies this
      ensures View() == AppendOne(old(View()), id, wallet)
      ensures count' - count == |transfers| - old(|transfers|)
    {
      count' := count;
      var found := wallet(id);
      if found.None? {
        return;
      }
      var t := found.value;
      if t.transferCount > 0 {
        index := index[id := (|transfers|, t.transferCount)];
        var transfer := t.firstTransfer;
        while transfer < t.firstTransfer + t.transferCount
          invariant t.firstTransfer <= transfer <= t.firstTransfer + t.transferCount
          invariant transfers == old(transfers) + RowsOf(id, t)[..transfer - t.firstTransfer]
          invariant count' - count == transfer - t.firstTransfer
          invariant index == old(index)[id := (old(|transfers|), t.transferCount)]
        {
          transfers := transfers + [(id, transfer)];
          count' := count' + 1;
          transfer := transfer + 1;
        }
      } else {
        transfers := transfers + [(id, INVALID_TRANSFER)];
        index := index[id := (|transfers| - 1, 1)];
        count' := count' + 1;
      }
    }

    /** `inserted` rows are announced after the `oldRows` that were there. */
    method AppendTransaction(id: nat, wallet: Wallet) returns (oldRows: nat, inserted: nat)
      modifies this
      ensures View() == Append(old(View()), id, wallet)
      ensures oldRows == old(|transfers|) && |transfers| == oldRows + inserted
    {
      oldRows, inserted := |transfers|, 0;
      if id in index {
        return;
      }
      var i := |index|;
      while i <= id
        invariant AppendRange(old(View()), old(|index|), id + 1, wallet) == AppendRange(View(), i, id + 1, wallet)
        invariant |transfers| == oldRows + inserted
      {
        inserted := AppendTransactionRows(i, wallet, inserted);
        i := i + 1;
      }
    }

    method ReloadWalletTransactions(transactionCount: nat, wallet: Wallet) returns (rowCount: nat)
      modifies this
      ensures View() == Reload(transactionCount, wallet) && rowCount == |transfers|
    {
      transfers, index := [], map[];
      rowCount := 0;
      var i := 0;
      while i < transactionCount
        invariant 0 <= i <= transactionCount
        invariant Reload(transactionCount, wallet) == AppendRange(View(), i, transactionCount, wallet)
        invariant rowCount == |transfers|
      {
        rowCount := AppendTransactionRows(i, wallet, rowCount);
        i := i + 1;
      }
    }

    method ResetModel()
      modifies this
      ensures View() == EMPTY
    {
      transfers, index := [], map[];
    }
  }

  // ----- what the table should hold -----

  /** How many transactions the table covers after `ops`, if it covered `n` before. */
  function Extent(n: nat, ops: seq<Op>): nat
    decreases |ops|
  {
    if ops == [] then n else
    match ops[0]
    case Notify(id) => Extent(if id < n then n else id + 1, ops[1..])
    case ReloadAll(count) => Extent(count, ops[1..])
    case Reset => Extent(0, ops[1..])
  }

  predicate Within(ops: seq<Op>, bound: nat)
    decreases |ops|
  {
    ops == [] || (Within(ops[1..], bound) && match ops[0]
                                             case Notify(id) => id < bound
                                             case ReloadAll(count) => count <= bound
                                             case Reset => true)
  }

  /** No transaction that can be found below `bound - 1` comes after one that cannot. */
  ghost predicate NoGap(bound: nat, wallet: Wallet) {
    forall f: nat, g: nat :: f < g && g + 1 < bound && wallet(g).Some? ==> wallet(f).Some?
  }

  lemma {:induction false} RangeSplit(m: Table, lo: nat, mid: nat, hi: nat, wallet: Wallet)
    requires lo <= mid <= hi
    ensures AppendRange(m, lo, hi, wallet) == AppendRange(AppendRange(m, lo, mid, wallet), mid, hi, wallet)
    decreases mid - lo
  {
    if lo < mid {
      RangeSplit(AppendOne(m, lo, wallet), lo + 1, mid, hi, wallet);
    }
  }

  lemma {:induction false} FailuresAddNothing(m: Table, lo: nat, hi: nat, wallet: Wallet)
    requires forall i: nat :: lo <= i < hi ==> wallet(i).None?
    ensures AppendRange(m, lo, hi, wallet) == m
    decreases hi - lo
  {
    if lo < hi {
      FailuresAddNothing(m, lo + 1, hi, wallet);
    }
  }

  lemma ReloadStep(n: nat, wallet: Wallet)
    ensures Reload(n + 1, wallet) == AppendOne(Reload(n, wallet), n, wallet)
  {
    RangeSplit(EMPTY, 0, n, n + 1, wallet);
  }

  /** The index holds exactly the transactions that can be found. */
  lemma {:induction false} ReloadKeys(n: nat, wallet: Wallet)
    ensures forall i: nat :: i in Reload(n, wallet).index <==> i < n && wallet(i).Some?
  {
    if n > 0 {
      ReloadKeys(n - 1, wallet);
      ReloadStep(n - 1, wallet);
    }
  }

  /** How many of the first `n` transactions can be found. */
  function Found(n: nat, wallet: Wallet): (k: nat)
    ensures k <= n
  {
    if n == 0 then 0 else Found(n - 1, wallet) + if wallet(n - 1).Some? then 1 else 0
  }

  lemma OneMore(m: Table, id: nat, wallet: Wallet)
    requires id !in m.index
    ensures |AppendOne(m, id, wallet).index| == |m.index| + if wallet(id).Some? then 1 else 0
  {
  }

  lemma {:induction false} ReloadSize(n: nat, wallet: Wallet)
    ensures |Reload(n, wallet).index| == Found(n, wallet)
  {
    if n > 0 {
      ReloadSize(n - 1, wallet);
      ReloadKeys(n - 1, wallet);
      ReloadStep(n - 1, wallet);
      OneMore(Reload(n - 1, wallet), n - 1, wallet);
    }
  }

  /** How many transactions from 0 on can be found, up to `bound`. */
  function Prefix(bound: nat, wallet: Wallet): (p: nat)
    ensures p <= bound && (forall i: nat :: i < p ==> wallet(i).Some?) && (p < bound ==> wallet(p).None?)
  {
    if bound == 0 then 0 else
    var p := Prefix(bound - 1, wallet);
    if p == bound - 1 && wallet(p).Some? then bound else p
  }

  lemma {:induction false} FoundPrefix(n: nat, p: nat, wallet: Wallet)
    requires forall i: nat :: i < n ==> (wallet(i).Some? <==> i < p)
    ensures Found(n, wallet) == if n < p then n else p
  {
    if n > 0 {
      FoundPrefix(n - 1, p, wallet);
    }
  }

  lemma {:induction false} FoundMissing(n: nat, f: nat, wallet: Wallet)
    requires f < n && wallet(f).None?
    ensures Found(n, wallet) < n
  {
    if f < n - 1 {
      FoundMissing(n - 1, f, wallet);
    }
  }

  /** Below `bound - 1` exactly the first `p` transactions can be found. */
  lemma PrefixFound(bound: nat, wallet: Wallet) returns (p: nat)
    requires bound > 0 && NoGap(bound, wallet)
    ensures p < bound && forall i: nat :: i < bound - 1 ==> (wallet(i).Some? <==> i < p)
  {
    p := Prefix(bound - 1, wallet);
    forall i: nat | i < bound - 1 ensures wallet(i).Some? <==> i < p {
      if p < i {
        assert wallet(i).Some? ==> wallet(p).Some?;
      }
    }
  }

  /** How far the index of a reload reaches. */
  lemma IndexReaches(n: nat, bound: nat, wallet: Wallet) returns (p: nat)
    requires NoGap(bound, wallet) && n <= bound && bound > 0
    ensures p < bound && forall i: nat :: i < bound - 1 ==> (wallet(i).Some? <==> i < p)
    ensures |Reload(n, wallet).index| >= if n < p then n else p
    ensures n < bound ==> |Reload(n, wallet).index| == if n < p then n else p
  {
    p := PrefixFound(bound, wallet);
    ReloadSize(n, wallet);
    FoundPrefix(if n < bound then n else n - 1, p, wallet);
  }

  lemma NotifyBelow(n: nat, id: nat, bound: nat, wallet: Wallet)
    requires NoGap(bound, wallet) && id < n <= bound
    ensures Append(Reload(n, wallet), id, wallet) == Reload(n, wallet)
  {
    var m := Reload(n, wallet);
    ReloadKeys(n, wallet);
    if id !in m.index {
      var p := IndexReaches(n, bound, wallet);
      FailuresAddNothing(m, |m.index|, id + 1, wallet);
    }
  }

  lemma NotifyAbove(n: nat, id: nat, bound: nat, wallet: Wallet)
    requires NoGap(bound, wallet) && n <= id < bound
    ensures Append(Reload(n, wallet), id, wallet) == Reload(id + 1, wallet)
  {
    var m := Reload(n, wallet);
    ReloadKeys(n, wallet);
    var p := IndexReaches(n, bound, wallet);
    FailuresAddNothing(m, |m.index|, n, wallet);
    RangeSplit(m, |m.index|, n, id + 1, wallet);
    RangeSplit(EMPTY, 0, n, id + 1, wallet);
  }

  /** A notification takes the reloaded table to the reloaded table. */
  lemma NotifyKeeps(n: nat, id: nat, bound: nat, wallet: Wallet)
    requires NoGap(bound, wallet) && n <= bound && id < bound
    ensures Append(Reload(n, wallet), id, wallet) == Reload(if id < n then n else id + 1, wallet)
  {
    if id < n {
      NotifyBelow(n, id, bound, wallet);
    } else {
      NotifyAbove(n, id, bound, wallet);
    }
  }

  lemma {:induction false} OpsKeep(n: nat, ops: seq<Op>, bound: nat, wallet: Wallet)
    requires NoGap(bound, wallet) && n <= bound && Within(ops, bound)
    ensures ApplyAll(Reload(n, wallet), ops, wallet) == Reload(Extent(n, ops), wallet)
    decreases |ops|
  {
    if ops != [] {
      match ops[0] {
        case Notify(id) =>
          NotifyKeeps(n, id, bound, wallet);
          OpsKeep(if id < n then n else id + 1, ops[1..], bound, wallet);
        case ReloadAll(count) =>
          OpsKeep(count, ops[1..], bound, wallet);
        case Reset =>
          assert Reload(0, wallet) == EMPTY;
          OpsKeep(0, ops[1..], bound, wallet);
      }
    }
  }

  // ----- transactions that cannot be found -----

  /** How many rows transaction `i` has. */
  function Len(i: nat, wallet: Wallet): nat {
    if wallet(i).Some? then |RowsOf(i, wallet(i).value)| else 0
  }

  /** The row at which transaction `i` starts, if all before it are there. */
  function Start(i: nat, wallet: Wallet): nat {
    if i == 0 then 0 else Start(i - 1, wallet) + Len(i - 1, wallet)
  }

  lemma {:induction false} StartGrows(i: nat, j: nat, wallet: Wallet)
    requires i <= j
    ensures Start(i, wallet) <= Start(j, wallet)
    decreases j
  {
    if i < j {
      StartGrows(i, j - 1, wallet);
    }
  }

  lemma {:induction false} RowsAdded(m: Table, lo: nat, hi: nat, wallet: Wallet)
    requires lo <= hi
    ensures |AppendRange(m, lo, hi, wallet).transfers| == |m.transfers| + Start(hi, wallet) - Start(lo, wallet)
    decreases hi - lo
  {
    if lo < hi {
      RowsAdded(AppendOne(m, lo, wallet), lo + 1, hi, wallet);
    }
  }

  lemma TwoNotifications(i: nat, j: nat, wallet: Wallet)
    ensures ApplyAll(EMPTY, [Notify(i), Notify(j)], wallet) == Append(Append(EMPTY, i, wallet), j, wallet)
    ensures Extent(0, [Notify(i), Notify(j)]) == if j <= i then i + 1 else j + 1
    ensures forall bound :: i < bound && j < bound ==> Within([Notify(i), Notify(j)], bound)
  {
    var ops := [Notify(i), Notify(j)];
    assert ops[1..] == [Notify(j)] && ops[1..][1..] == [];
    var m := Append(EMPTY, i, wallet);
    assert ApplyAll(m, ops[1..], wallet) == Append(m, j, wallet);
    assert Extent(i + 1, ops[1..]) == Extent(if j <= i then i + 1 else j + 1, ops[1..][1..]);
    assert forall bound :: j < bound ==> Within(ops[1..], bound);
  }

  lemma RepeatedRows(m: Table, k: nat, g: nat, wallet: Wallet)
    requires k <= g && wallet(g).Some? && |m.transfers| == Start(g + 1, wallet)
    ensures |AppendRange(m, k, g + 2, wallet).transfers| > Start(g + 2, wallet)
  {
    RowsAdded(m, k, g + 2, wallet);
    StartGrows(k, g, wallet);
  }

  /** After a gap, the next notification adds rows a second time. */
  lemma GapRepeatsRows(f: nat, g: nat, wallet: Wallet)
    requires f < g && wallet(f).None? && wallet(g).Some?
    ensures Append(Append(EMPTY, g, wallet), g + 1, wallet) != Reload(g + 2, wallet)
  {
    var m := Reload(g + 1, wallet);
    ReloadKeys(g + 1, wallet);
    ReloadSize(g + 1, wallet);
    FoundMissing(g + 1, f, wallet);
    RowsAdded(EMPTY, 0, g + 1, wallet);
    RepeatedRows(m, |m.index|, g, wallet);
    RowsAdded(EMPTY, 0, g + 2, wallet);
  }

  /** All notifications, reloads and resets leave what a reload would leave. */
  ghost predicate AgreesWithReload(bound: nat, wallet: Wallet) {
    forall ops :: Within(ops, bound) ==> ApplyAll(EMPTY, ops, wallet) == Reload(Extent(0, ops), wallet)
  }

  /** The incremental table agrees with a reload exactly when no found transaction comes after a gap. */
  lemma AgreesIffNoGap(bound: nat, wallet: Wallet)
    ensures AgreesWithReload(bound, wallet) <==> NoGap(bound, wallet)
  {
    if NoGap(bound, wallet) {
      forall ops | Within(ops, bound) ensures ApplyAll(EMPTY, ops, wallet) == Reload(Extent(0, ops), wallet) {
        assert Reload(0, wallet) == EMPTY;
        OpsKeep(0, ops, bound, wallet);
      }
    } else {
      var f: nat, g: nat :| f < g && g + 1 < bound && wallet(g).Some? && wallet(f).None?;
      GapRepeatsRows(f, g, wallet);
      TwoNotifications(g, g + 1, wallet);
    }
  }

  // ----- the rows of a reload -----

  /** Transaction `i` has its own rows, right after those of the transactions before it. */
  ghost predicate HasRows(m: Table, i: nat, t: Transaction, wallet: Wallet) {
    var start, rows := Start(i, wallet), RowsOf(i, t);
    && i in m.index && m.index[i] == (start, |rows|)
    && start + |rows| <= |m.transfers| && m.transfers[start..start + |rows|] == rows
  }

  lemma {:induction false} RowsInOrder(n: nat, i: nat, wallet: Wallet)
    requires i < n && wallet(i).Some?
    ensures HasRows(Reload(n, wallet), i, wallet(i).value, wallet)
    decreases n
  {
    var m, m' := Reload(n - 1, wallet), Reload(n, wallet);
    RangeSplit(EMPTY, 0, n - 1, n, wallet);
    RowsAdded(EMPTY, 0, n - 1, wallet);
    assert m' == AppendOne(m, n - 1, wallet);
    if i < n - 1 {
      RowsInOrder(n - 1, i, wallet);
    }
  }

  /** Every row of a reload belongs to exactly one transaction. */
  lemma {:induction false} RowHasOneOwner(n: nat, row: nat, wallet: Wallet) returns (i: nat)
    requires row < |Reload(n, wallet).transfers|
    ensures i < n && wallet(i).Some? && Start(i, wallet) <= row < Start(i, wallet) + Len(i, wallet)
    ensures forall j: nat :: j < n && Start(j, wallet) <= row < Start(j, wallet) + Len(j, wallet) ==> j == i
    decreases n
  {
    RowsAdded(EMPTY, 0, n, wallet);
    i := OwnerBelow(n, row, wallet);
    forall j: nat | j < n && Start(j, wallet) <= row < Start(j, wallet) + Len(j, wallet) ensures j == i {
      if j < i {
        StartGrows(j + 1, i, wallet);
      } else if i < j {
        StartGrows(i + 1, j, wallet);
      }
    }
  }

  lemma {:induction false} OwnerBelow(n: nat, row: nat, wallet: Wallet) returns (i: nat)
    requires row < Start(n, wallet)
    ensures i < n && Start(i, wallet) <= row < Start(i, wallet) + Len(i, wallet)
    decreases n
  {
    if row < Start(n - 1, wallet) {
      i := OwnerBelow(n - 1, row, wallet);
    } else {
      i := n - 1;
    }
  }

  /** With every lookup successful the table is the reload, whatever came in which order. */
  lemma {:induction false} FoundAgrees(bound: nat, ops: seq<Op>, wallet: Wallet)
    requires (forall i: nat :: i < bound ==> wallet(i).Some?) && Within(ops, bound)
    ensures var m := ApplyAll(EMPTY, ops, wallet); var n := Extent(0, ops);
            && m == Reload(n, wallet) && |m.transfers| == Start(n, wallet)
            && forall i: nat :: i < n && wallet(i).Some? ==> HasRows(m, i, wallet(i).value, wallet)
  {
    var n := Extent(0, ops);
    AgreesIffNoGap(bound, wallet);
    RowsAdded(EMPTY, 0, n, wallet);
    forall i: nat | i < n && wallet(i).Some? ensures HasRows(Reload(n, wallet), i, wallet(i).value, wallet) {
      RowsInOrder(n, i, wallet);
    }
  }

  // ----- what the rows show -----

  /** A transaction has a row for each of its transfers, and one row if it has none. */
  function RowCount(t: Transaction): nat {
    if t.transferCount == 0 then 1 else t.transferCount
  }

  /** The transfer shown in row `k` of a transaction. */
  function TransferOf(t: Transaction, k: nat): nat {
    if t.transferCount == 0 then INVALID_TRANSFER else t.firstTransfer + k
  }

  /** Rows taken by the transactions below `i`, counted from the wallet alone. */
  function RowsBelow(i: nat, wallet: Wallet): nat {
    if i == 0 then 0 else
    RowsBelow(i - 1, wallet) + match wallet(i - 1) case None => 0 case Some(t) => RowCount(t)
  }

  lemma {:induction false} StartIsRowsBelow(i: nat, wallet: Wallet)
    ensures Start(i, wallet) == RowsBelow(i, wallet)
  {
    if i > 0 {
      StartIsRowsBelow(i - 1, wallet);
    }
  }

  lemma RowOf(i: nat, t: Transaction, k: nat)
    requires k < RowCount(t)
    ensures |RowsOf(i, t)| == RowCount(t) && RowsOf(i, t)[k] == (i, TransferOf(t, k))
  {
  }

  lemma RowInSlice(transfers: seq<(nat, nat)>, start: nat, rows: seq<(nat, nat)>, k: nat)
    requires start + |rows| <= |transfers| && transfers[start..start + |rows|] == rows && k < |rows|
    ensures transfers[start + k] == rows[k]
  {
    assert transfers[start..start + |rows|][k] == transfers[start + k];
  }

  /** Row `k` of transaction `i` stands right behind the rows of the transactions below it and shows transfer `k`. */
  lemma RowShows(n: nat, i: nat, t: Transaction, k: nat, wallet: Wallet)
    requires i < n && wallet(i) == Some(t) && k < RowCount(t)
    ensures var m, row := Reload(n, wallet), RowsBelow(i, wallet) + k;
            && row < |m.transfers| && m.transfers[row] == (i, TransferOf(t, k))
            && i in m.index && m.index[i] == (RowsBelow(i, wallet), RowCount(t))
  {
    RowsInOrder(n, i, wallet);
    StartIsRowsBelow(i, wallet);
    RowOf(i, t, k);
    RowInSlice(Reload(n, wallet).transfers, Start(i, wallet), RowsOf(i, t), k);
  }

  /** The table has no other rows. */
  lemma NoOtherRows(n: nat, wallet: Wallet)
    ensures |Reload(n, wallet).transfers| == RowsBelow(n, wallet)
  {
    RowsAdded(EMPTY, 0, n, wallet);
    StartIsRowsBelow(n, wallet);
  }
}
