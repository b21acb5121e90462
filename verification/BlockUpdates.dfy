/**
  Main-chain tracking of `BlockchainExplorer`: `localBlockchainUpdated` asks the node for a range
  of heights that starts at the last height already asked for, and the completion turns the
  answer into one `blockchainUpdated` notification.
 */
module BlockUpdates {
  import opened Basics

  datatype Block = Block(height: nat, hash: nat, orphaned: bool)

  /** What a completion collects while it walks over the answer. */
  datatype Scan = Scan(topHeight: nat, found: bool, top: Block, added: seq<Block>, orphans: seq<Block>)

  const NO_BLOCK := Block(0, 0, false)
  const EMPTY_SCAN := Scan(0, false, NO_BLOCK, [], [])

  function Range(lo: nat, hi: nat): seq<nat> {
    if lo > hi then [] else seq(hi - lo + 1, i => lo + i)
  }

  /** The test that decides whether a main-chain block is reported. */
  predicate IsNew(known: Block, b: Block) {
    b.height > known.height || b.hash != known.hash
  }

  function ScanBlock(known: Block, sc: Scan, b: Block): Scan {
    var higher := sc.topHeight < b.height;
    var found := sc.found && !higher;
    Scan(if higher then b.height else sc.topHeight,
         found || !b.orphaned,
         if !found && !b.orphaned then b else sc.top,
         if !b.orphaned && IsNew(known, b) then sc.added + [b] else sc.added,
         if b.orphaned then sc.orphans + [b] else sc.orphans)
  }

  function ScanGroup(known: Block, sc: Scan, bs: seq<Block>): Scan {
    if bs == [] then sc else ScanBlock(known, ScanGroup(known, sc, bs[..|bs| - 1]), bs[|bs| - 1])
  }

  function ScanAll(known: Block, blocks: seq<seq<Block>>): Scan {
    if blocks == [] then EMPTY_SCAN
    else ScanGroup(known, ScanAll(known, blocks[..|blocks| - 1]), blocks[|blocks| - 1])
  }

  predicate FirstMainchain(blocks: seq<Block>, b: Block) {
    exists i :: 0 <= i < |blocks| && blocks[i] == b && !b.orphaned && forall j :: 0 <= j < i ==> blocks[j].orphaned
  }

  /** The search of `getBlockchainTop`; `None` stands for its exception. */
  method MainchainBlock(blocks: seq<Block>) returns (r: Option<Block>)
    ensures r.Some? ==> FirstMainchain(blocks, r.value)
    ensures r.None? ==> forall i :: 0 <= i < |blocks| ==> blocks[i].orphaned
  {
    for i := 0 to |blocks|
      invariant forall j :: 0 <= j < i ==> blocks[j].orphaned
    {
      if !blocks[i].orphaned {
        return Some(blocks[i]);
      }
    }
    return None;
  }

  /** The fields of the explorer that track the main chain. */
  class BlockTracker {
    var top: Block           // knownBlockchainTop
    var topHeight: nat       // knownBlockchainTopHeight
    var observers: nat

    /** The end of `init`, after the top block has been found. */
    constructor (start: Block)
      ensures top == start && topHeight == start.height && observers == 0
    {
      top, topHeight, observers := start, start.height, 0;
    }

    method LocalBlockchainUpdated(height: nat) returns (asked: bool, heights: seq<nat>)
      requires observers != 0 ==> topHeight <= height
      modifies this`topHeight
      ensures topHeight == height
      ensures asked <==> observers != 0
      ensures asked ==> heights == Range(old(topHeight), height)
    {
      heights := [];
      asked := observers != 0;
      if asked {
        var i := topHeight;
        while i <= height
          invariant topHeight <= i <= height + 1
          invariant |heights| == i - topHeight
          invariant forall k :: 0 <= k < |heights| ==> heights[k] == topHeight + k
        {
          heights := heights + [i];
          i := i + 1;
        }
        assert heights == Range(topHeight, height);
      }
      topHeight := height;
    }

    /** The completion of the block request. */
    method BlocksArrived(ok: bool, blocks: seq<seq<Block>>)
      returns (told: bool, added: seq<Block>, orphans: seq<Block>)
      modifies this`top
      ensures told <==> ok && ScanAll(old(top), blocks).found
      ensures top == if told then ScanAll(old(top), blocks).top else old(top)
      ensures added == if ok then ScanAll(old(top), blocks).added else []
      ensures orphans == if ok then ScanAll(old(top), blocks).orphans else []
    {
      told, added, orphans := false, [], [];
      if !ok {
        return;
      }
      var scannedTop: Block, scannedHeight: nat := NO_BLOCK, 0;
      for i := 0 to |blocks|
        invariant top == old(top)
        invariant ScanAll(top, blocks[..i]) == Scan(scannedHeight, told, scannedTop, added, orphans)
      {
        ghost var before := ScanAll(top, blocks[..i]);
        for j := 0 to |blocks[i]|
          invariant top == old(top)
          invariant ScanGroup(top, before, blocks[i][..j]) == Scan(scannedHeight, told, scannedTop, added, orphans)
        {
          var b := blocks[i][j];
          assert blocks[i][..j + 1][..j] == blocks[i][..j];
          if scannedHeight < b.height {
            scannedHeight := b.height;
            told := false;
          }
          if b.orphaned {
            orphans := orphans + [b];
          } else {
            if b.height > top.height || b.hash != top.hash {
              added := added + [b];
            }
            if !told {
              scannedTop := b;
              told := true;
            }
          }
        }
        assert blocks[i][..|blocks[i]|] == blocks[i];
        assert blocks[..i + 1][..i] == blocks[..i];
      }
      assert blocks[..|blocks|] == blocks;
      if told {
        top := scannedTop;
      }
    }
  }

  // ----- what one completion reports -----

  /** A main chain, indexed by height. */
  ghost predicate IsChain(chain: seq<Block>) {
    forall h :: 0 <= h < |chain| ==> chain[h].height == h && !chain[h].orphaned
  }

  ghost predicate DistinctHashes(chain: seq<Block>) {
    forall g, h :: 0 <= g < h < |chain| ==> chain[g].hash != chain[h].hash
  }

  /** All blocks the node knows at one height: the main-chain block at `m` and orphans around it. */
  ghost predicate IsGroup(group: seq<Block>, main: Block, m: nat) {
    && m < |group| && group[m] == main && !main.orphaned
    && (forall j :: 0 <= j < |group| ==> group[j].height == main.height)
    && (forall j :: 0 <= j < |group| && j != m ==> group[j].orphaned)
  }

  ghost predicate HasMain(group: seq<Block>, main: Block) {
    exists m :: IsGroup(group, main, m)
  }

  /** A truthful answer to a request for the heights `lo..hi`. */
  ghost predicate IsAnswer(chain: seq<Block>, lo: nat, hi: nat, blocks: seq<seq<Block>>) {
    && lo <= hi < |chain| && |blocks| == hi - lo + 1
    && forall i :: 0 <= i < |blocks| ==> HasMain(blocks[i], chain[lo + i])
  }

  /** Main-chain blocks of `lo..hi` that the completion takes for new. */
  function Reported(chain: seq<Block>, known: Block, lo: nat, hi: nat): seq<Block>
    requires hi < |chain|
    decreases hi
  {
    if lo > hi then [] else
    var before := if hi == 0 then [] else Reported(chain, known, lo, hi - 1);
    before + (if IsNew(known, chain[hi]) then [chain[hi]] else [])
  }

  function OneIfNew(known: Block, b: Block): seq<Block> {
    if IsNew(known, b) then [b] else []
  }

  lemma {:induction false} ReportedOne(chain: seq<Block>, known: Block, h: nat)
    requires h < |chain|
    ensures Reported(chain, known, h, h) == OneIfNew(known, chain[h])
  {
  }

  lemma ReportedNext(chain: seq<Block>, known: Block, lo: nat, hi: nat)
    requires lo < hi < |chain|
    ensures Reported(chain, known, lo, hi) == Reported(chain, known, lo, hi - 1) + OneIfNew(known, chain[hi])
  {
  }

  lemma {:induction false} ScanGroupFinds(known: Block, pre: Scan, group: seq<Block>, main: Block, m: nat, j: nat)
    requires IsGroup(group, main, m) && j <= |group|
    requires pre.topHeight < main.height || pre == EMPTY_SCAN
    ensures var sc := ScanGroup(known, pre, group[..j]);
            && sc.added == pre.added + (if j > m then OneIfNew(known, main) else [])
            && (0 < j ==> sc.topHeight == main.height)
            && (0 < j <= m ==> !sc.found)
            && (m < j ==> sc.found && sc.top == main)
  {
    if j > 0 {
      ScanGroupFinds(known, pre, group, main, m, j - 1);
      assert group[..j][..j - 1] == group[..j - 1];
    }
  }

  lemma {:induction false} GroupScanned(known: Block, pre: Scan, group: seq<Block>, main: Block)
    requires HasMain(group, main) && (pre.topHeight < main.height || pre == EMPTY_SCAN)
    ensures var sc := ScanGroup(known, pre, group);
            sc.added == pre.added + OneIfNew(known, main) && sc.topHeight == main.height && sc.found && sc.top == main
  {
    var m :| IsGroup(group, main, m);
    assert group[..|group|] == group;
    ScanGroupFinds(known, pre, group, main, m, |group|);
  }

  /** The scan of a truthful answer for `lo..hi`. */
  ghost predicate Scanned(chain: seq<Block>, known: Block, lo: nat, hi: nat, sc: Scan)
    requires hi < |chain|
  {
    sc.found && sc.top == chain[hi] && sc.topHeight == hi && sc.added == Reported(chain, known, lo, hi)
  }

  lemma FirstGroup(chain: seq<Block>, known: Block, h: nat, group: seq<Block>)
    requires IsChain(chain) && h < |chain| && HasMain(group, chain[h])
    ensures Scanned(chain, known, h, h, ScanGroup(known, EMPTY_SCAN, group))
  {
    GroupScanned(known, EMPTY_SCAN, group, chain[h]);
    ReportedOne(chain, known, h);
  }

  lemma NextGroup(chain: seq<Block>, known: Block, lo: nat, hi: nat, pre: Scan, group: seq<Block>)
    requires IsChain(chain) && lo < hi < |chain| && HasMain(group, chain[hi]) && Scanned(chain, known, lo, hi - 1, pre)
    ensures Scanned(chain, known, lo, hi, ScanGroup(known, pre, group))
  {
    GroupScanned(known, pre, group, chain[hi]);
    ReportedNext(chain, known, lo, hi);
  }

  lemma {:induction false} ScanAnswer(chain: seq<Block>, known: Block, lo: nat, hi: nat, blocks: seq<seq<Block>>)
    requires IsChain(chain) && IsAnswer(chain, lo, hi, blocks)
    ensures Scanned(chain, known, lo, hi, ScanAll(known, blocks))
    decreases hi
  {
    var n := |blocks| - 1;
    var init, group := blocks[..n], blocks[n];
    assert HasMain(group, chain[lo + n]);
    if lo < hi {
      ScanAnswer(chain, known, lo, hi - 1, init);
      NextGroup(chain, known, lo, hi, ScanAll(known, init), group);
    } else {
      FirstGroup(chain, known, hi, group);
    }
  }

  /** The orphaned blocks of one height. */
  function OrphansIn(group: seq<Block>): seq<Block> {
    if group == [] then [] else
    var last := group[|group| - 1];
    OrphansIn(group[..|group| - 1]) + if last.orphaned then [last] else []
  }

  function Orphans(blocks: seq<seq<Block>>): seq<Block> {
    if blocks == [] then [] else Orphans(blocks[..|blocks| - 1]) + OrphansIn(blocks[|blocks| - 1])
  }

  lemma {:induction false} GroupOrphans(known: Block, pre: Scan, group: seq<Block>)
    ensures ScanGroup(known, pre, group).orphans == pre.orphans + OrphansIn(group)
  {
    if group != [] {
      GroupOrphans(known, pre, group[..|group| - 1]);
    }
  }

  /** Whatever the node answers, exactly its orphaned blocks are reported as orphaned, in order. */
  lemma {:induction false} OrphansReported(known: Block, blocks: seq<seq<Block>>)
    ensures ScanAll(known, blocks).orphans == Orphans(blocks)
  {
    if blocks != [] {
      var n := |blocks| - 1;
      OrphansReported(known, blocks[..n]);
      GroupOrphans(known, ScanAll(known, blocks[..n]), blocks[n]);
    }
  }

  /** The blocks above height `k`, up to `hi`. */
  function Above(chain: seq<Block>, k: nat, hi: nat): seq<Block>
    requires hi < |chain|
  {
    if k < hi then chain[k + 1..hi + 1] else []
  }

  lemma SliceSnoc(chain: seq<Block>, first: nat, hi: nat)
    requires first <= hi < |chain|
    ensures chain[first..hi + 1] == chain[first..hi] + [chain[hi]]
  {
  }

  /** The first height a request from `lo` on reports when the known top is at `k`: not the top itself again. */
  function FirstNew(k: nat, lo: nat): nat {
    if lo == k then k + 1 else lo
  }

  /** One more new block at the end. */
  lemma ReportedGrows(chain: seq<Block>, known: Block, lo: nat, hi: nat, first: nat)
    requires lo < hi < |chain| && first <= hi && IsNew(known, chain[hi])
    requires Reported(chain, known, lo, hi - 1) == chain[first..hi]
    ensures Reported(chain, known, lo, hi) == chain[first..hi + 1]
  {
    ReportedNext(chain, known, lo, hi);
    SliceSnoc(chain, first, hi);
  }

  lemma {:induction false} ReportedAhead(chain: seq<Block>, k: nat, lo: nat, hi: nat)
    requires IsChain(chain) && k <= lo <= hi < |chain|
    ensures Reported(chain, chain[k], lo, hi) == chain[FirstNew(k, lo)..hi + 1]
    decreases hi
  {
    if lo < hi {
      ReportedAhead(chain, k, lo, hi - 1);
      ReportedGrows(chain, chain[k], lo, hi, FirstNew(k, lo));
    } else {
      ReportedOne(chain, chain[k], hi);
      if k < hi {
        SliceSnoc(chain, hi, hi);
      }
    }
  }

  lemma {:induction false} ReportedHas(chain: seq<Block>, known: Block, lo: nat, hi: nat, h: nat)
    requires lo <= h <= hi < |chain| && IsNew(known, chain[h])
    ensures chain[h] in Reported(chain, known, lo, hi)
    decreases hi
  {
    if h < hi {
      ReportedHas(chain, known, lo, hi - 1, h);
    }
  }

  lemma {:induction false} ReportedWithin(chain: seq<Block>, known: Block, lo: nat, hi: nat, b: Block)
    requires IsChain(chain) && hi < |chain| && b in Reported(chain, known, lo, hi)
    ensures lo <= b.height <= hi
    decreases hi
  {
    if b != chain[hi] {
      ReportedWithin(chain, known, lo, hi - 1, b);
    }
  }

  /** A completion reports exactly the blocks above the known top iff its range starts at or just above that top. */
  lemma {:induction false} ReportsExactlyAbove(chain: seq<Block>, k: nat, lo: nat, hi: nat)
    requires IsChain(chain) && DistinctHashes(chain) && k < |chain| && lo <= hi < |chain|
    ensures Reported(chain, chain[k], lo, hi) == Above(chain, k, hi) <==> lo == k || lo == k + 1
  {
    if lo == k || lo == k + 1 {
      ReportedAhead(chain, k, lo, hi);
    } else if lo < k {
      ReportedHas(chain, chain[k], lo, hi, lo);
      assert chain[lo] !in Above(chain, k, hi);
    } else {
      assert chain[k + 1] == Above(chain, k, hi)[0];
      if chain[k + 1] in Reported(chain, chain[k], lo, hi) {
        ReportedWithin(chain, chain[k], lo, hi, chain[k + 1]);
      }
    }
  }

  // ----- whole runs -----

  /**
    The tracker together with the requests that are still pending.  `reported` and `answered` are
    history: the main-chain blocks reported as new, and the ranges the node has answered.
   */
  datatype State = State(top: Block, topHeight: nat, pending: seq<(nat, nat)>, reported: seq<Block>,
                         answered: seq<(nat, nat)>)

  /** `Unobserved` is an update without observers, `Fails` a request the node does not answer. */
  datatype Event =
    | Update(height: nat)
    | Unobserved(height: nat)
    | Answer(which: nat, blocks: seq<seq<Block>>)
    | Fails(which: nat)

  ghost predicate Enabled(chain: seq<Block>, s: State, e: Event) {
    match e
    case Update(height) => s.topHeight <= height < |chain|
    case Unobserved(height) => s.topHeight <= height < |chain|
    case Answer(which, blocks) =>
      which < |s.pending| && IsAnswer(chain, s.pending[which].0, s.pending[which].1, blocks)
    case Fails(which) => which < |s.pending|
  }

  function Without(pending: seq<(nat, nat)>, which: nat): seq<(nat, nat)> {
    if which < |pending| then pending[..which] + pending[which + 1..] else pending
  }

  function Apply(s: State, e: Event): State {
    match e
    case Update(height) => s.(topHeight := height, pending := s.pending + [(s.topHeight, height)])
    case Unobserved(height) => s.(topHeight := height)
    case Answer(which, blocks) =>
      if which >= |s.pending| then s else
      var sc := ScanAll(s.top, blocks);
      var rest := s.(pending := Without(s.pending, which), answered := s.answered + [s.pending[which]]);
      if sc.found then rest.(top := sc.top, reported := s.reported + sc.added) else rest
    case Fails(which) => s.(pending := Without(s.pending, which))
  }

  function After(s: State, events: seq<Event>): State {
    if events == [] then s else Apply(After(s, events[..|events| - 1]), events[|events| - 1])
  }

  ghost predicate Legal(chain: seq<Block>, s: State, events: seq<Event>) {
    events == [] ||
    var n := |events| - 1;
    Legal(chain, s, events[..n]) && Enabled(chain, After(s, events[..n]), events[n])
  }

  /** The explorer after `init`. */
  function Start(chain: seq<Block>, start: nat): State
    requires start < |chain|
  {
    State(chain[start], start, [], [], [])
  }

  /** The state after a truthful answer. */
  function Answered(chain: seq<Block>, s: State, which: nat): State
    requires which < |s.pending| && s.pending[which].1 < |chain|
  {
    var (lo, hi) := s.pending[which];
    State(chain[hi], s.topHeight, Without(s.pending, which), s.reported + Reported(chain, s.top, lo, hi),
          s.answered + [(lo, hi)])
  }

  lemma AnswerApplies(chain: seq<Block>, s: State, which: nat, blocks: seq<seq<Block>>)
    requires IsChain(chain) && Enabled(chain, s, Answer(which, blocks))
    ensures Apply(s, Answer(which, blocks)) == Answered(chain, s, which)
  {
    ScanAnswer(chain, s.top, s.pending[which].0, s.pending[which].1, blocks);
  }

  /** A request that starts at the known top reports exactly the blocks above it, although it asks for the top again. */
  lemma {:induction false} AnswerReportsAbove(chain: seq<Block>, k: nat, hi: nat, blocks: seq<seq<Block>>)
    requires IsChain(chain) && IsAnswer(chain, k, hi, blocks)
    ensures var sc := ScanAll(chain[k], blocks);
            sc.found && sc.top == chain[hi] && sc.added == Above(chain, k, hi)
  {
    ScanAnswer(chain, chain[k], k, hi, blocks);
    ReportedAhead(chain, k, k, hi);
  }

  // ----- answers to the oldest request -----

  /** Every request is answered, and observers are there all the time. */
  predicate AllAnswered(events: seq<Event>) {
    forall i :: 0 <= i < |events| ==> events[i].Update? || events[i].Answer?
  }

  /** The request at `which` is the oldest one, or one for the same heights. */
  predicate Oldest(pending: seq<(nat, nat)>, which: nat) {
    which < |pending| && pending[which] == pending[0]
  }

  /** Every answer was to the oldest pending request. */
  predicate TookOldest(s: State, events: seq<Event>) {
    events == [] ||
    var n := |events| - 1;
    && TookOldest(s, events[..n])
    && (events[n].Answer? ==> Oldest(After(s, events[..n]).pending, events[n].which))
  }

  /** Pending ranges follow each other from `k` on. */
  predicate Ahead(pending: seq<(nat, nat)>, k: nat, top: nat) {
    if pending == [] then k <= top
    else k <= pending[0].0 <= pending[0].1 && Ahead(pending[1..], pending[0].1, top)
  }

  lemma {:induction false} AheadAbove(pending: seq<(nat, nat)>, k: nat, top: nat, i: nat)
    requires Ahead(pending, k, top) && i < |pending|
    ensures k <= pending[i].0 <= pending[i].1
    decreases |pending|
  {
    if i > 0 {
      AheadAbove(pending[1..], pending[0].1, top, i - 1);
    }
  }

  lemma AheadLater(pending: seq<(nat, nat)>, k: nat, top: nat, i: nat)
    requires Ahead(pending, k, top) && 0 < i < |pending|
    ensures k <= pending[0].0 <= pending[0].1 <= pending[i].0 <= pending[i].1
  {
    AheadAbove(pending[1..], pending[0].1, top, i - 1);
  }

  lemma {:induction false} AheadEnds(pending: seq<(nat, nat)>, k: nat, top: nat)
    requires Ahead(pending, k, top)
    ensures k <= top
    decreases |pending|
  {
    if pending != [] {
      AheadEnds(pending[1..], pending[0].1, top);
    }
  }

  lemma SecondIsFirst(pending: seq<(nat, nat)>, k: nat, top: nat, which: nat)
    requires Ahead(pending, k, top) && Oldest(pending, which) && which > 0
    ensures pending[1] == pending[0]
  {
    AheadLater(pending, k, top, which);
    AheadLater(pending, k, top, 1);
    if which > 1 {
      AheadLater(pending[1..], pending[0].1, top, which - 1);
    }
  }

  lemma WithoutTail(pending: seq<(nat, nat)>, which: nat)
    requires 0 < which < |pending|
    ensures Without(pending, which) == [pending[0]] + Without(pending[1..], which - 1)
  {
  }

  /** Taking a request for the same heights as the oldest is taking the oldest. */
  lemma {:induction false} OldestIsFirst(pending: seq<(nat, nat)>, k: nat, top: nat, which: nat)
    requires Ahead(pending, k, top) && Oldest(pending, which)
    ensures Without(pending, which) == pending[1..]
    decreases |pending|
  {
    if which > 0 {
      SecondIsFirst(pending, k, top, which);
      OldestIsFirst(pending[1..], pending[0].1, top, which - 1);
      WithoutTail(pending, which);
    }
  }

  /** Consecutive pending ranges share their end points. */
  predicate Linked(pending: seq<(nat, nat)>, lo: nat, hi: nat) {
    if pending == [] then lo == hi
    else pending[0].0 == lo && lo <= pending[0].1 && Linked(pending[1..], pending[0].1, hi)
  }

  lemma {:induction false} LinkedIsAhead(pending: seq<(nat, nat)>, lo: nat, hi: nat)
    requires Linked(pending, lo, hi)
    ensures Ahead(pending, lo, hi)
    decreases |pending|
  {
    if pending != [] {
      LinkedIsAhead(pending[1..], pending[0].1, hi);
    }
  }

  lemma {:induction false} LinkedAppend(pending: seq<(nat, nat)>, lo: nat, hi: nat, next: nat)
    requires Linked(pending, lo, hi) && hi <= next
    ensures Linked(pending + [(hi, next)], lo, next)
  {
    if pending != [] {
      LinkedAppend(pending[1..], pending[0].1, hi, next);
      assert (pending + [(hi, next)])[1..] == pending[1..] + [(hi, next)];
    }
  }

  ghost predicate Tracking(chain: seq<Block>, start: nat, s: State) {
    && start <= s.top.height < |chain| && s.top == chain[s.top.height]
    && s.reported == chain[start + 1..s.top.height + 1]
    && Linked(s.pending, s.top.height, s.topHeight)
  }

  lemma UpdateKeepsTracking(chain: seq<Block>, start: nat, s: State, height: nat)
    requires Tracking(chain, start, s) && s.topHeight <= height
    ensures Tracking(chain, start, Apply(s, Update(height)))
  {
    LinkedAppend(s.pending, s.top.height, s.topHeight, height);
  }

  lemma SlicesJoin(chain: seq<Block>, start: nat, k: nat, hi: nat)
    requires start <= k <= hi < |chain|
    ensures chain[start + 1..k + 1] + chain[k + 1..hi + 1] == chain[start + 1..hi + 1]
  {
  }

  lemma AnswerKeepsTracking(chain: seq<Block>, start: nat, s: State, which: nat)
    requires IsChain(chain) && Tracking(chain, start, s)
    requires Oldest(s.pending, which) && s.pending[which].1 < |chain|
    ensures Tracking(chain, start, Answered(chain, s, which))
  {
    var k, hi := s.top.height, s.pending[0].1;
    LinkedIsAhead(s.pending, k, s.topHeight);
    OldestIsFirst(s.pending, k, s.topHeight, which);
    ReportedAhead(chain, k, k, hi);
    SlicesJoin(chain, start, k, hi);
  }

  /** The requests join up from the known top to the last requested height, and the reports so far have no gap. */
  lemma {:induction false} RunKeepsTracking(chain: seq<Block>, start: nat, s: State, events: seq<Event>)
    requires IsChain(chain) && Tracking(chain, start, s)
    requires Legal(chain, s, events) && AllAnswered(events) && TookOldest(s, events)
    ensures Tracking(chain, start, After(s, events))
  {
    if events != [] {
      var n := |events| - 1;
      var before := After(s, events[..n]);
      RunKeepsTracking(chain, start, s, events[..n]);
      if events[n].Update? {
        UpdateKeepsTracking(chain, start, before, events[n].height);
      } else {
        AnswerApplies(chain, before, events[n].which, events[n].blocks);
        AnswerKeepsTracking(chain, start, before, events[n].which);
      }
    }
  }

  /**
    From a top block on the main chain, with answers processed in the order of the requests: what
    observers are told is exactly the run of main-chain blocks above the start, each once and in
    order, and once nothing is pending the known top is the block at the last requested height.
   */
  lemma {:induction false} EveryBlockReportedOnce(chain: seq<Block>, start: nat, events: seq<Event>)
    requires IsChain(chain) && start < |chain|
    requires Legal(chain, Start(chain, start), events) && AllAnswered(events)
    requires TookOldest(Start(chain, start), events)
    ensures var s := After(Start(chain, start), events);
            && start <= s.top.height < |chain| && s.top == chain[s.top.height]
            && s.reported == chain[start + 1..s.top.height + 1]
            && (s.pending == [] ==> s.top.height == s.topHeight)
  {
    RunKeepsTracking(chain, start, Start(chain, start), events);
  }

  // ----- answers in any order -----

  /** A later report is not above an earlier one. */
  ghost predicate Spoiled(reported: seq<Block>) {
    exists i, j :: 0 <= i < j < |reported| && reported[i].height >= reported[j].height
  }

  /** Height `l` will be reported after the higher `m`: a request from `l` on is pending, and the top is elsewhere. */
  ghost predicate Doomed(chain: seq<Block>, s: State, l: nat, m: nat) {
    && l < m < |chain| && chain[m] in s.reported
    && l != s.top.height < |chain| && s.top == chain[s.top.height] && l <= s.topHeight
    && (exists i :: 0 <= i < |s.pending| && s.pending[i].0 == l)
    && (forall i :: 0 <= i < |s.pending| ==> l <= s.pending[i].0 <= s.pending[i].1)
  }

  ghost predicate Lost(chain: seq<Block>, s: State, l: nat, m: nat) {
    Spoiled(s.reported) || Doomed(chain, s, l, m)
  }

  lemma SpoiledStays(reported: seq<Block>, more: seq<Block>)
    requires Spoiled(reported)
    ensures Spoiled(reported + more)
  {
    var i, j :| 0 <= i < j < |reported| && reported[i].height >= reported[j].height;
    var all := reported + more;
    assert all[i] == reported[i] && all[j] == reported[j];
  }

  lemma LateReportSpoils(reported: seq<Block>, more: seq<Block>, a: Block, b: Block)
    requires a in reported && b in more && a.height >= b.height
    ensures Spoiled(reported + more)
  {
    var i :| 0 <= i < |reported| && reported[i] == a;
    var j :| 0 <= j < |more| && more[j] == b;
    var all := reported + more;
    assert all[i] == a && all[|reported| + j] == b;
  }

  lemma WithoutKeeps(pending: seq<(nat, nat)>, which: nat, i: nat)
    requires which < |pending| && i < |pending| && i != which
    ensures exists j :: 0 <= j < |Without(pending, which)| && Without(pending, which)[j] == pending[i]
  {
    var j := if i < which then i else i - 1;
    assert Without(pending, which)[j] == pending[i];
  }

  lemma AnswerStaysDoomed(chain: seq<Block>, s: State, l: nat, m: nat, which: nat)
    requires IsChain(chain) && DistinctHashes(chain) && Doomed(chain, s, l, m)
    requires which < |s.pending| && s.pending[which].1 < |chain|
    ensures Lost(chain, Answered(chain, s, which), l, m)
  {
    var (lo, hi) := s.pending[which];
    if lo == l {
      ReportedHas(chain, s.top, lo, hi, l);
      LateReportSpoils(s.reported, Reported(chain, s.top, lo, hi), chain[m], chain[l]);
    } else {
      var i :| 0 <= i < |s.pending| && s.pending[i].0 == l;
      WithoutKeeps(s.pending, which, i);
    }
  }

  lemma StepStaysLost(chain: seq<Block>, s: State, l: nat, m: nat, e: Event)
    requires IsChain(chain) && DistinctHashes(chain) && Lost(chain, s, l, m)
    requires Enabled(chain, s, e) && (e.Update? || e.Answer?)
    ensures Lost(chain, Apply(s, e), l, m)
  {
    if e.Answer? {
      AnswerApplies(chain, s, e.which, e.blocks);
      if Spoiled(s.reported) {
        SpoiledStays(s.reported, Reported(chain, s.top, s.pending[e.which].0, s.pending[e.which].1));
      } else {
        AnswerStaysDoomed(chain, s, l, m, e.which);
      }
    } else if !Spoiled(s.reported) {
      var i :| 0 <= i < |s.pending| && s.pending[i].0 == l;
      assert Apply(s, e).pending[i] == s.pending[i];
    }
  }

  /** An answer to another request than the oldest leaves the oldest to be reported too late. */
  lemma OtherAnswerDooms(chain: seq<Block>, start: nat, s: State, which: nat)
    requires IsChain(chain) && Tracking(chain, start, s)
    requires which < |s.pending| && s.pending[which].1 < |chain| && !Oldest(s.pending, which)
    ensures Doomed(chain, Answered(chain, s, which), s.top.height, s.pending[which].1)
  {
    var l := s.top.height;
    var (lo, hi) := s.pending[which];
    var s' := Answered(chain, s, which);
    LinkedIsAhead(s.pending, l, s.topHeight);
    AheadLater(s.pending, l, s.topHeight, which);
    AheadEnds(s.pending, l, s.topHeight);
    ReportedHas(chain, s.top, lo, hi, hi);
    assert s'.pending[0] == s.pending[0];
    forall i | 0 <= i < |s'.pending| ensures l <= s'.pending[i].0 <= s'.pending[i].1 {
      AheadAbove(s.pending, l, s.topHeight, if i < which then i else i + 1);
    }
  }

  lemma {:induction false} OtherOrderIsLost(chain: seq<Block>, start: nat, s: State, events: seq<Event>)
    returns (l: nat, m: nat)
    requires IsChain(chain) && DistinctHashes(chain) && Tracking(chain, start, s)
    requires Legal(chain, s, events) && AllAnswered(events) && !TookOldest(s, events)
    ensures Lost(chain, After(s, events), l, m)
  {
    var n := |events| - 1;
    var init, e := events[..n], events[n];
    var before := After(s, init);
    if TookOldest(s, init) {
      RunKeepsTracking(chain, start, s, init);
      AnswerApplies(chain, before, e.which, e.blocks);
      OtherAnswerDooms(chain, start, before, e.which);
      l, m := before.top.height, before.pending[e.which].1;
    } else {
      l, m := OtherOrderIsLost(chain, start, s, init);
      StepStaysLost(chain, before, l, m, e);
    }
  }

  lemma SliceAscends(chain: seq<Block>, start: nat, top: nat)
    requires IsChain(chain) && start <= top < |chain|
    ensures !Spoiled(chain[start + 1..top + 1])
  {
    var slice := chain[start + 1..top + 1];
    assert forall i :: 0 <= i < |slice| ==> slice[i].height == start + 1 + i;
  }

  /**
    A run in which every request is answered reports every main-chain block above the start exactly
    once and in order, if and only if every answer was to the oldest pending request.
   */
  lemma ReportedOnceIff(chain: seq<Block>, start: nat, events: seq<Event>)
    requires IsChain(chain) && DistinctHashes(chain) && start < |chain|
    requires Legal(chain, Start(chain, start), events) && AllAnswered(events)
    requires After(Start(chain, start), events).pending == []
    ensures var s := After(Start(chain, start), events);
            && start <= s.topHeight < |chain|
            && (s.reported == chain[start + 1..s.topHeight + 1] <==> TookOldest(Start(chain, start), events))
  {
    var s0 := Start(chain, start);
    var s := After(s0, events);
    HeightsGrow(chain, s0, events);
    if TookOldest(s0, events) {
      RunKeepsTracking(chain, start, s0, events);
    } else {
      var l, m := OtherOrderIsLost(chain, start, s0, events);
      SliceAscends(chain, start, s.topHeight);
    }
  }

  lemma {:induction false} HeightsGrow(chain: seq<Block>, s: State, events: seq<Event>)
    requires Legal(chain, s, events) && s.topHeight < |chain|
    ensures s.topHeight <= After(s, events).topHeight < |chain|
  {
    if events != [] {
      HeightsGrow(chain, s, events[..|events| - 1]);
    }
  }

  // ----- lost answers and times without observers -----

  /** Some answered request asked for height `x`. */
  ghost predicate Covered(answered: seq<(nat, nat)>, x: nat) {
    exists i :: 0 <= i < |answered| && answered[i].0 <= x <= answered[i].1
  }

  ghost predicate Ascending(reported: seq<Block>) {
    forall i, j :: 0 <= i < j < |reported| ==> reported[i].height < reported[j].height
  }

  /** Everything reported is a main-chain block above `start` and up to `k`. */
  ghost predicate Between(chain: seq<Block>, start: nat, k: nat, reported: seq<Block>)
    requires k < |chain|
  {
    forall i :: 0 <= i < |reported| ==> start < reported[i].height <= k && reported[i] == chain[reported[i].height]
  }

  predicate Has(chain: seq<Block>, reported: seq<Block>, x: nat) {
    x < |chain| && chain[x] in reported
  }

  ghost predicate Advancing(chain: seq<Block>, start: nat, s: State) {
    && start <= s.top.height < |chain| && s.top == chain[s.top.height]
    && Ahead(s.pending, s.top.height, s.topHeight)
    && Ascending(s.reported) && Between(chain, start, s.top.height, s.reported)
    && (s.top.height == start || Covered(s.answered, s.top.height))
    && (forall x :: start < x < |chain| ==> (Has(chain, s.reported, x) <==> Covered(s.answered, x)))
  }

  lemma {:induction false} AheadRaise(pending: seq<(nat, nat)>, k: nat, top: nat, next: nat)
    requires Ahead(pending, k, top) && top <= next
    ensures Ahead(pending, k, next) && Ahead(pending + [(top, next)], k, next)
    decreases |pending|
  {
    if pending != [] {
      AheadRaise(pending[1..], pending[0].1, top, next);
      assert (pending + [(top, next)])[1..] == pending[1..] + [(top, next)];
    }
  }

  lemma AheadFrom(pending: seq<(nat, nat)>, k: nat, from: nat, top: nat)
    requires Ahead(pending, k, top) && from <= k
    ensures Ahead(pending, from, top)
  {
  }

  lemma {:induction false} AheadWithout(pending: seq<(nat, nat)>, k: nat, top: nat, which: nat)
    requires Ahead(pending, k, top) && which < |pending|
    ensures Ahead(Without(pending, which), k, top)
    decreases |pending|
  {
    if which == 0 {
      AheadFrom(pending[1..], pending[0].1, k, top);
      assert Without(pending, 0) == pending[1..];
    } else {
      AheadWithout(pending[1..], pending[0].1, top, which - 1);
      WithoutTail(pending, which);
      assert Without(pending, which)[1..] == Without(pending[1..], which - 1);
    }
  }

  lemma CoveredNext(answered: seq<(nat, nat)>, range: (nat, nat), x: nat)
    ensures Covered(answered + [range], x) <==> Covered(answered, x) || range.0 <= x <= range.1
  {
    var all := answered + [range];
    if Covered(answered, x) {
      var i :| 0 <= i < |answered| && answered[i].0 <= x <= answered[i].1;
      assert all[i] == answered[i];
    }
    if range.0 <= x <= range.1 {
      assert all[|answered|] == range;
    }
  }

  lemma SliceHas(chain: seq<Block>, first: nat, hi: nat, x: nat)
    requires IsChain(chain) && first <= hi + 1 <= |chain| && x < |chain|
    ensures chain[x] in chain[first..hi + 1] <==> first <= x <= hi
  {
    var run := chain[first..hi + 1];
    assert forall i :: 0 <= i < |run| ==> run[i].height == first + i;
    if first <= x <= hi {
      assert run[x - first] == chain[x];
    }
  }

  lemma SliceOrdered(chain: seq<Block>, k: nat, first: nat, hi: nat)
    requires IsChain(chain) && k < first <= hi + 1 <= |chain|
    ensures Ascending(chain[first..hi + 1]) && Between(chain, k, hi, chain[first..hi + 1])
  {
    var run := chain[first..hi + 1];
    assert forall i :: 0 <= i < |run| ==> run[i] == chain[first + i];
  }

  lemma ReportsJoin(chain: seq<Block>, start: nat, k: nat, hi: nat, reported: seq<Block>, more: seq<Block>)
    requires start <= k <= hi < |chain|
    requires Ascending(reported) && Between(chain, start, k, reported)
    requires Ascending(more) && Between(chain, k, hi, more)
    ensures Ascending(reported + more) && Between(chain, start, hi, reported + more)
  {
  }

  lemma AnswerKeepsAdvancing(chain: seq<Block>, start: nat, s: State, which: nat)
    requires IsChain(chain) && Advancing(chain, start, s)
    requires Oldest(s.pending, which) && s.pending[which].1 < |chain|
    ensures Advancing(chain, start, Answered(chain, s, which))
  {
    var k := s.top.height;
    var (lo, hi) := s.pending[0];
    OldestIsFirst(s.pending, k, s.topHeight, which);
    ReportedAhead(chain, k, lo, hi);
    SliceOrdered(chain, k, FirstNew(k, lo), hi);
    ReportsJoin(chain, start, k, hi, s.reported, chain[FirstNew(k, lo)..hi + 1]);
    CoveredNext(s.answered, (lo, hi), hi);
    forall x | start < x < |chain|
      ensures Has(chain, Answered(chain, s, which).reported, x) <==> Covered(Answered(chain, s, which).answered, x)
    {
      CoveredNext(s.answered, (lo, hi), x);
      SliceHas(chain, FirstNew(k, lo), hi, x);
    }
  }

  lemma {:induction false} RunKeepsAdvancing(chain: seq<Block>, start: nat, s: State, events: seq<Event>)
    requires IsChain(chain) && Advancing(chain, start, s)
    requires Legal(chain, s, events) && TookOldest(s, events)
    ensures Advancing(chain, start, After(s, events))
  {
    if events != [] {
      var n := |events| - 1;
      var before := After(s, events[..n]);
      RunKeepsAdvancing(chain, start, s, events[..n]);
      match events[n]
      case Update(height) => AheadRaise(before.pending, before.top.height, before.topHeight, height);
      case Unobserved(height) => AheadRaise(before.pending, before.top.height, before.topHeight, height);
      case Answer(which, blocks) =>
        AnswerApplies(chain, before, which, blocks);
        AnswerKeepsAdvancing(chain, start, before, which);
      case Fails(which) => AheadWithout(before.pending, before.top.height, before.topHeight, which);
    }
  }

  lemma TopIsLast(chain: seq<Block>, start: nat, top: nat, reported: seq<Block>)
    requires top < |chain| && IsChain(chain) && Ascending(reported) && Between(chain, start, top, reported)
    requires chain[top] in reported
    ensures reported != [] && reported[|reported| - 1] == chain[top]
  {
    var i :| 0 <= i < |reported| && reported[i] == chain[top];
  }

  lemma InitHasRest(chain: seq<Block>, top: nat, reported: seq<Block>, x: nat)
    requires IsChain(chain) && x < top < |chain|
    requires reported != [] && reported[|reported| - 1] == chain[top] && Has(chain, reported, x)
    ensures Has(chain, reported[..|reported| - 1], x)
  {
    var init := reported[..|reported| - 1];
    var j :| 0 <= j < |reported| && reported[j] == chain[x];
    assert init[j] == chain[x];
  }

  lemma InitBetween(chain: seq<Block>, start: nat, top: nat, reported: seq<Block>)
    requires start < top < |chain| && IsChain(chain) && Ascending(reported) && Between(chain, start, top, reported)
    requires reported != [] && reported[|reported| - 1] == chain[top]
    ensures Ascending(reported[..|reported| - 1]) && Between(chain, start, top - 1, reported[..|reported| - 1])
  {
  }

  ghost predicate HasAll(chain: seq<Block>, start: nat, top: nat, reported: seq<Block>) {
    forall x :: start < x <= top ==> Has(chain, reported, x)
  }

  lemma InitHasAll(chain: seq<Block>, start: nat, top: nat, reported: seq<Block>)
    requires IsChain(chain) && start < top < |chain| && HasAll(chain, start, top, reported)
    requires reported != [] && reported[|reported| - 1] == chain[top]
    ensures HasAll(chain, start, top - 1, reported[..|reported| - 1])
  {
    var init := reported[..|reported| - 1];
    forall x | start < x <= top - 1 ensures Has(chain, init, x) {
      InitHasRest(chain, top, reported, x);
    }
  }

  lemma FirstBetween(chain: seq<Block>, start: nat, top: nat, reported: seq<Block>)
    requires top < |chain| && Between(chain, start, top, reported)
    ensures reported != [] ==> start < reported[0].height <= top
  {
  }

  /** An ascending selection that leaves nothing out is the whole run. */
  lemma {:induction false} NothingLeftOut(chain: seq<Block>, start: nat, top: nat, reported: seq<Block>)
    requires IsChain(chain) && start <= top < |chain|
    requires Ascending(reported) && Between(chain, start, top, reported) && HasAll(chain, start, top, reported)
    ensures reported == chain[start + 1..top + 1]
    decreases top
  {
    if start < top {
      assert Has(chain, reported, top);
      TopIsLast(chain, start, top, reported);
      InitBetween(chain, start, top, reported);
      InitHasAll(chain, start, top, reported);
      NothingLeftOut(chain, start, top - 1, reported[..|reported| - 1]);
      SliceSnoc(chain, start + 1, top);
    } else {
      FirstBetween(chain, start, top, reported);
    }
  }

  /** Every height above `start` and up to `top` was asked for by an answered request. */
  ghost predicate CoversAll(answered: seq<(nat, nat)>, start: nat, top: nat) {
    forall x :: start < x <= top ==> Covered(answered, x)
  }

  lemma CompleteIff(chain: seq<Block>, start: nat, top: nat, reported: seq<Block>)
    requires IsChain(chain) && start <= top < |chain|
    requires Ascending(reported) && Between(chain, start, top, reported)
    ensures reported == chain[start + 1..top + 1] <==> HasAll(chain, start, top, reported)
  {
    if HasAll(chain, start, top, reported) {
      NothingLeftOut(chain, start, top, reported);
    } else {
      var x :| start < x <= top && !Has(chain, reported, x);
      SliceHas(chain, start + 1, top, x);
    }
  }

  lemma AdvancingReports(chain: seq<Block>, start: nat, s: State)
    requires IsChain(chain) && Advancing(chain, start, s) && s.topHeight < |chain|
    ensures start <= s.topHeight && Between(chain, start, s.topHeight, s.reported)
    ensures s.reported == chain[start + 1..s.topHeight + 1] <==> CoversAll(s.answered, start, s.topHeight)
  {
    AheadEnds(s.pending, s.top.height, s.topHeight);
    CompleteIff(chain, start, s.topHeight, s.reported);
    assert HasAll(chain, start, s.topHeight, s.reported) <==> CoversAll(s.answered, start, s.topHeight);
  }

  /**
    With requests that fail and heights that pass unobserved, as long as answers come in the order of
    the requests: reports are main-chain blocks in ascending order, a block is reported exactly when
    an answered request asked for its height, and nothing is missing exactly when those requests
    cover all heights.
   */
  lemma ReportedIffCovered(chain: seq<Block>, start: nat, events: seq<Event>)
    requires IsChain(chain) && start < |chain|
    requires Legal(chain, Start(chain, start), events) && TookOldest(Start(chain, start), events)
    ensures var s := After(Start(chain, start), events);
            && start <= s.topHeight < |chain| && Ascending(s.reported) && Between(chain, start, s.topHeight, s.reported)
            && (forall x :: start < x < |chain| ==> (Has(chain, s.reported, x) <==> Covered(s.answered, x)))
            && (s.reported == chain[start + 1..s.topHeight + 1] <==> CoversAll(s.answered, start, s.topHeight))
  {
    var s0 := Start(chain, start);
    HeightsGrow(chain, s0, events);
    RunKeepsAdvancing(chain, start, s0, events);
    AdvancingReports(chain, start, After(s0, events));
  }

  /** Two answers of two heights each, the later request answered first. */
  lemma {:induction false} TwoHeights(chain: seq<Block>, known: Block, lo: nat)
    requires IsChain(chain) && lo + 1 < |chain|
    requires IsNew(known, chain[lo]) && IsNew(known, chain[lo + 1])
    ensures IsAnswer(chain, lo, lo + 1, [[chain[lo]], [chain[lo + 1]]])
    ensures Reported(chain, known, lo, lo + 1) == [chain[lo], chain[lo + 1]]
  {
    assert IsGroup([chain[lo]], chain[lo], 0) && IsGroup([chain[lo + 1]], chain[lo + 1], 0);
    assert Reported(chain, known, lo, lo) == [chain[lo]];
  }

  /** Answers in the opposite order report a block twice, report the starting top, and move the top back. */
  lemma OutOfOrderReportsTwice(a: Block, b: Block, c: Block)
    requires IsChain([a, b, c]) && DistinctHashes([a, b, c])
    ensures var s2 := Apply(Apply(Start([a, b, c], 0), Update(1)), Update(2));
            var s3 := Apply(s2, Answer(1, [[b], [c]]));
            var s4 := Apply(s3, Answer(0, [[a], [b]]));
            && Enabled([a, b, c], s2, Answer(1, [[b], [c]])) && Enabled([a, b, c], s3, Answer(0, [[a], [b]]))
            && s4.reported == [b, c, a, b] && s4.top == b && s4.topHeight == 2 && s4.pending == []
  {
    var chain := [a, b, c];
    assert chain[0] == a && chain[1] == b && chain[2] == c;
    var s2 := Apply(Apply(Start(chain, 0), Update(1)), Update(2));
    assert s2 == State(a, 2, [(0, 1), (1, 2)], [], []);
    TwoHeights(chain, a, 1);
    AnswerApplies(chain, s2, 1, [[b], [c]]);
    assert Apply(s2, Answer(1, [[b], [c]])) == State(c, 2, [(0, 1)], [b, c], [(1, 2)]);
    TwoHeights(chain, c, 0);
    AnswerApplies(chain, State(c, 2, [(0, 1)], [b, c], [(1, 2)]), 0, [[a], [b]]);
  }

  // ----- blocks that are never reported -----

  lemma {:induction false} ReportedIsNew(chain: seq<Block>, known: Block, lo: nat, hi: nat, b: Block)
    requires hi < |chain| && b in Reported(chain, known, lo, hi)
    ensures IsNew(known, b)
    decreases hi
  {
    if lo < hi && b in Reported(chain, known, lo, hi - 1) {
      ReportedIsNew(chain, known, lo, hi - 1, b);
    }
  }

  /** An answer reports the heights it covers, but for the height of the known top. */
  lemma AnswerReports(chain: seq<Block>, k: nat, lo: nat, hi: nat, x: nat)
    requires IsChain(chain) && DistinctHashes(chain) && k < |chain| && lo <= hi < |chain| && x < |chain|
    ensures chain[x] in Reported(chain, chain[k], lo, hi) <==> lo <= x <= hi && x != k
  {
    if chain[x] in Reported(chain, chain[k], lo, hi) {
      ReportedWithin(chain, chain[k], lo, hi, chain[x]);
      ReportedIsNew(chain, chain[k], lo, hi, chain[x]);
    } else if lo <= x <= hi && x != k {
      ReportedHas(chain, chain[k], lo, hi, x);
    }
  }

  ghost predicate RangesFit(chain: seq<Block>, pending: seq<(nat, nat)>) {
    forall i :: 0 <= i < |pending| ==> pending[i].0 <= pending[i].1 < |chain|
  }

  /** Whatever the order of the answers: what is reported above the start are the heights of answered requests. */
  ghost predicate Told(chain: seq<Block>, start: nat, s: State) {
    && s.top.height < |chain| && s.top == chain[s.top.height] && s.topHeight < |chain| && RangesFit(chain, s.pending)
    && (s.top.height == start || Has(chain, s.reported, s.top.height))
    && (forall x :: start < x < |chain| ==> (Has(chain, s.reported, x) <==> Covered(s.answered, x)))
  }

  lemma ToldByAnswer(chain: seq<Block>, start: nat, s: State, which: nat, x: nat)
    requires IsChain(chain) && DistinctHashes(chain) && Told(chain, start, s) && which < |s.pending|
    requires start <= x < |chain|
    ensures var s' := Answered(chain, s, which);
            && (start < x ==> (Has(chain, s'.reported, x) <==> Covered(s'.answered, x)))
            && (x == s.pending[which].1 ==> x == start || Has(chain, s'.reported, x))
  {
    var (lo, hi) := s.pending[which];
    AnswerReports(chain, s.top.height, lo, hi, x);
    CoveredNext(s.answered, (lo, hi), x);
  }

  lemma AnswerKeepsTold(chain: seq<Block>, start: nat, s: State, which: nat)
    requires IsChain(chain) && DistinctHashes(chain) && Told(chain, start, s) && which < |s.pending|
    requires start <= s.pending[which].1
    ensures Told(chain, start, Answered(chain, s, which))
  {
    var s' := Answered(chain, s, which);
    forall x | start < x < |chain| ensures Has(chain, s'.reported, x) <==> Covered(s'.answered, x) {
      ToldByAnswer(chain, start, s, which, x);
    }
    ToldByAnswer(chain, start, s, which, s.pending[which].1);
  }

  /** Every pending range ends at or above the start, and the recorded height does not fall below it. */
  ghost predicate NotBelow(start: nat, s: State) {
    start <= s.topHeight && forall i :: 0 <= i < |s.pending| ==> start <= s.pending[i].1
  }

  lemma StepKeepsTold(chain: seq<Block>, start: nat, s: State, e: Event)
    requires IsChain(chain) && DistinctHashes(chain) && Enabled(chain, s, e)
    requires Told(chain, start, s) && NotBelow(start, s)
    ensures Told(chain, start, Apply(s, e)) && NotBelow(start, Apply(s, e))
  {
    if e.Answer? {
      AnswerApplies(chain, s, e.which, e.blocks);
      AnswerKeepsTold(chain, start, s, e.which);
    }
  }

  lemma {:induction false} RunKeepsTold(chain: seq<Block>, start: nat, events: seq<Event>)
    requires IsChain(chain) && DistinctHashes(chain) && start < |chain| && Legal(chain, Start(chain, start), events)
    ensures var s := After(Start(chain, start), events); Told(chain, start, s) && NotBelow(start, s)
  {
    if events != [] {
      var n := |events| - 1;
      RunKeepsTold(chain, start, events[..n]);
      StepKeepsTold(chain, start, After(Start(chain, start), events[..n]), events[n]);
    }
  }

  /** The recorded height has passed `x`, no pending request asks for it, and it has not been reported. */
  ghost predicate Missed(chain: seq<Block>, s: State, x: nat) {
    x < s.topHeight && !Covered(s.pending, x) && !Has(chain, s.reported, x)
  }

  lemma CoveredWithout(pending: seq<(nat, nat)>, which: nat, x: nat)
    requires Covered(Without(pending, which), x)
    ensures Covered(pending, x)
  {
    var rest := Without(pending, which);
    var i :| 0 <= i < |rest| && rest[i].0 <= x <= rest[i].1;
    var j := if i < which then i else i + 1;
    assert which < |pending| ==> pending[j] == rest[i];
  }

  lemma StepStaysMissed(chain: seq<Block>, s: State, x: nat, e: Event)
    requires IsChain(chain) && x < |chain| && Missed(chain, s, x) && Enabled(chain, s, e)
    ensures Missed(chain, Apply(s, e), x)
  {
    match e
    case Update(height) => CoveredNext(s.pending, (s.topHeight, height), x);
    case Unobserved(height) =>
    case Answer(which, blocks) =>
      AnswerApplies(chain, s, which, blocks);
      var (lo, hi) := s.pending[which];
      if chain[x] in Reported(chain, s.top, lo, hi) {
        ReportedWithin(chain, s.top, lo, hi, chain[x]);
      }
      if Covered(Without(s.pending, which), x) {
        CoveredWithout(s.pending, which, x);
      }
    case Fails(which) =>
      if Covered(Without(s.pending, which), x) {
        CoveredWithout(s.pending, which, x);
      }
  }

  /** A missed block is in no later report, whatever happens. */
  lemma {:induction false} MissedForGood(chain: seq<Block>, s: State, x: nat, events: seq<Event>)
    requires IsChain(chain) && x < |chain| && Missed(chain, s, x) && Legal(chain, s, events)
    ensures Missed(chain, After(s, events), x)
  {
    if events != [] {
      var n := |events| - 1;
      MissedForGood(chain, s, x, events[..n]);
      StepStaysMissed(chain, After(s, events[..n]), x, events[n]);
    }
  }

  /** The answer of a node that knows no orphans. */
  function PlainAnswer(chain: seq<Block>, lo: nat, hi: nat): seq<seq<Block>>
    requires lo <= hi < |chain|
  {
    seq(hi - lo + 1, i requires 0 <= i < hi - lo + 1 => [chain[lo + i]])
  }

  lemma PlainAnswerIsAnswer(chain: seq<Block>, lo: nat, hi: nat)
    requires IsChain(chain) && lo <= hi < |chain|
    ensures IsAnswer(chain, lo, hi, PlainAnswer(chain, lo, hi))
  {
    var blocks := PlainAnswer(chain, lo, hi);
    forall i | 0 <= i < |blocks| ensures HasMain(blocks[i], chain[lo + i]) {
      assert IsGroup(blocks[i], chain[lo + i], 0);
    }
  }

  ghost predicate NeverReported(chain: seq<Block>, s: State, x: nat) {
    forall events :: Legal(chain, s, events) ==> !Has(chain, After(s, events).reported, x)
  }

  /** Behind `first`, one more event. */
  lemma {:induction false} OneEvent(chain: seq<Block>, s: State, first: seq<Event>, e: Event)
    requires Legal(chain, s, first) && Enabled(chain, After(s, first), e)
    ensures Legal(chain, s, first + [e]) && After(s, first + [e]) == Apply(After(s, first), e)
  {
    assert (first + [e])[..|first|] == first;
  }

  lemma PendingAnswer(chain: seq<Block>, start: nat, s: State, x: nat) returns (e: Event)
    requires IsChain(chain) && DistinctHashes(chain) && start < x < |chain|
    requires Told(chain, start, s) && Covered(s.pending, x) && !Has(chain, s.reported, x)
    ensures Enabled(chain, s, e) && Has(chain, Apply(s, e).reported, x)
  {
    var i :| 0 <= i < |s.pending| && s.pending[i].0 <= x <= s.pending[i].1;
    var (lo, hi) := s.pending[i];
    e := Answer(i, PlainAnswer(chain, lo, hi));
    PlainAnswerIsAnswer(chain, lo, hi);
    AnswerApplies(chain, s, i, e.blocks);
    AnswerReports(chain, s.top.height, lo, hi, x);
  }

  /** A pending request for its height can still report a block that is not the known top. */
  lemma PendingReports(chain: seq<Block>, start: nat, s: State, first: seq<Event>, x: nat)
    requires IsChain(chain) && DistinctHashes(chain) && start < x < |chain| && Legal(chain, s, first)
    requires var s1 := After(s, first); Told(chain, start, s1) && Covered(s1.pending, x) && !Has(chain, s1.reported, x)
    ensures !NeverReported(chain, s, x)
  {
    var e := PendingAnswer(chain, start, After(s, first), x);
    OneEvent(chain, s, first, e);
    assert Has(chain, After(s, first + [e]).reported, x);
  }

  lemma NotMissedReports(chain: seq<Block>, start: nat, s: State, x: nat)
    requires IsChain(chain) && DistinctHashes(chain) && Told(chain, start, s) && NotBelow(start, s)
    requires start < x < |chain| && !Missed(chain, s, x)
    ensures !NeverReported(chain, s, x)
  {
    assert Legal(chain, s, []) && After(s, []) == s;
    if !Has(chain, s.reported, x) {
      if Covered(s.pending, x) {
        PendingReports(chain, start, s, [], x);
      } else {
        StepKeepsTold(chain, start, s, Update(x));
        OneEvent(chain, s, [], Update(x));
        CoveredNext(s.pending, (s.topHeight, x), x);
        PendingReports(chain, start, s, [] + [Update(x)], x);
      }
    }
  }

  /**
    After any run, with answers in any order: a block above the start will never be reported if and
    only if the recorded height has passed it and neither a pending nor an answered request asked
    for it.
   */
  lemma NeverReportedIff(chain: seq<Block>, start: nat, events: seq<Event>, x: nat)
    requires IsChain(chain) && DistinctHashes(chain) && start < x < |chain|
    requires Legal(chain, Start(chain, start), events)
    ensures var s := After(Start(chain, start), events);
            NeverReported(chain, s, x) <==> x < s.topHeight && !Covered(s.pending, x) && !Covered(s.answered, x)
  {
    var s := After(Start(chain, start), events);
    RunKeepsTold(chain, start, events);
    if Missed(chain, s, x) {
      forall more | Legal(chain, s, more) ensures !Has(chain, After(s, more).reported, x) {
        MissedForGood(chain, s, x, more);
      }
    } else {
      NotMissedReports(chain, start, s, x);
    }
  }

  // ----- what the loss of a range costs -----

  /** A tracker with nothing pending, whose last requested height is that of the known top. */
  ghost predicate Settled(chain: seq<Block>, s: State, t: nat) {
    t < |chain| && s.top == chain[t] && s.topHeight == t && s.pending == []
  }

  /** The heights up to `h` are lost: their request fails, or they pass unobserved. */
  function Loss(h: nat, unobserved: bool): seq<Event> {
    if unobserved then [Unobserved(h)] else [Update(h), Fails(0)]
  }

  lemma {:induction false} LossApplied(chain: seq<Block>, s: State, t: nat, h: nat, unobserved: bool)
    requires Settled(chain, s, t) && t <= h < |chain|
    ensures Legal(chain, s, Loss(h, unobserved)) && After(s, Loss(h, unobserved)) == s.(topHeight := h)
  {
    if unobserved {
      OneEvent(chain, s, [], Unobserved(h));
      assert [] + [Unobserved(h)] == [Unobserved(h)];
    } else {
      OneEvent(chain, s, [], Update(h));
      assert [] + [Update(h)] == [Update(h)];
      OneEvent(chain, s, [Update(h)], Fails(0));
      assert [Update(h)] + [Fails(0)] == [Update(h), Fails(0)];
    }
  }

  /** The next request starts at `h`, so exactly the inner heights of the lost range are left out. */
  lemma LostRangeMisses(chain: seq<Block>, s: State, t: nat, h: nat, unobserved: bool, next: nat,
                        blocks: seq<seq<Block>>)
    requires IsChain(chain) && Settled(chain, s, t) && t <= h <= next < |chain| && IsAnswer(chain, h, next, blocks)
    ensures var events := Loss(h, unobserved) + [Update(next)] + [Answer(0, blocks)];
            && Legal(chain, s, events) && Settled(chain, After(s, events), next)
            && After(s, events).reported == s.reported + chain[FirstNew(t, h)..next + 1]
  {
    var lost := Loss(h, unobserved);
    LossApplied(chain, s, t, h, unobserved);
    OneEvent(chain, s, lost, Update(next));
    var s1 := After(s, lost + [Update(next)]);
    assert s1 == s.(topHeight := next, pending := [(h, next)]);
    OneEvent(chain, s, lost + [Update(next)], Answer(0, blocks));
    AnswerApplies(chain, s1, 0, blocks);
    ReportedAhead(chain, t, h, next);
  }

  /** With two new heights in the lost range the lower one is missed, for good. */
  lemma InnerHeightLost(a: Block, b: Block, c: Block, d: Block, unobserved: bool)
    requires IsChain([a, b, c, d])
    ensures var chain := [a, b, c, d];
            var events := Loss(2, unobserved) + [Update(3)] + [Answer(0, [[c], [d]])];
            var s := After(Start(chain, 0), events);
            Legal(chain, Start(chain, 0), events) && s.reported == [c, d] && Missed(chain, s, 1)
  {
    var chain := [a, b, c, d];
    assert chain[1] == b && chain[2] == c && chain[3] == d && chain[2..4] == [c, d];
    assert IsGroup([c], c, 0) && IsGroup([d], d, 0);
    assert IsAnswer(chain, 2, 3, [[c], [d]]);
    LostRangeMisses(chain, Start(chain, 0), 0, 2, unobserved, 3, [[c], [d]]);
  }

  // ----- a known top from another chain -----

  ghost predicate CarriesHash(chain: seq<Block>, known: Block, x: nat) {
    x < |chain| && x <= known.height && chain[x].hash == known.hash
  }

  ghost predicate AllNew(chain: seq<Block>, known: Block, lo: nat, hi: nat) {
    forall x :: lo <= x <= hi < |chain| ==> IsNew(known, chain[x])
  }

  lemma {:induction false} ReportedAllNew(chain: seq<Block>, known: Block, lo: nat, hi: nat)
    requires lo <= hi < |chain| && AllNew(chain, known, lo, hi)
    ensures Reported(chain, known, lo, hi) == chain[lo..hi + 1]
    decreases hi
  {
    if lo < hi {
      ReportedAllNew(chain, known, lo, hi - 1);
      ReportedGrows(chain, known, lo, hi, lo);
    } else {
      ReportedOne(chain, known, hi);
      SliceSnoc(chain, hi, hi);
    }
  }

  lemma ReportedWhole(chain: seq<Block>, known: Block, lo: nat, hi: nat)
    requires IsChain(chain) && lo <= hi < |chain| && forall x :: lo <= x <= hi ==> !CarriesHash(chain, known, x)
    ensures Reported(chain, known, lo, hi) == chain[lo..hi + 1]
  {
    forall x | lo <= x <= hi ensures IsNew(known, chain[x]) {
      assert !CarriesHash(chain, known, x);
    }
    ReportedAllNew(chain, known, lo, hi);
  }

  lemma WithoutOneGrows(chain: seq<Block>, known: Block, lo: nat, hi: nat, x: nat, before: seq<Block>)
    requires lo < hi < |chain| && x < hi && IsNew(known, chain[hi])
    requires Reported(chain, known, lo, hi - 1) == before + chain[x + 1..hi]
    ensures Reported(chain, known, lo, hi) == before + chain[x + 1..hi + 1]
  {
    ReportedNext(chain, known, lo, hi);
    SliceSnoc(chain, x + 1, hi);
    SeqAssoc(before, chain[x + 1..hi], [chain[hi]]);
  }

  lemma {:induction false} ReportedUpTo(chain: seq<Block>, known: Block, lo: nat, x: nat)
    requires IsChain(chain) && lo <= x < |chain| && CarriesHash(chain, known, x)
    requires forall y :: lo <= y < x ==> !CarriesHash(chain, known, y)
    ensures Reported(chain, known, lo, x) == chain[lo..x]
  {
    if lo < x {
      ReportedWhole(chain, known, lo, x - 1);
      ReportedNext(chain, known, lo, x);
    } else {
      ReportedOne(chain, known, x);
    }
  }

  lemma {:induction false} ReportedWithoutOne(chain: seq<Block>, known: Block, lo: nat, hi: nat, x: nat)
    requires IsChain(chain) && lo <= x <= hi < |chain| && CarriesHash(chain, known, x)
    requires forall y :: lo <= y <= hi && y != x ==> !CarriesHash(chain, known, y)
    ensures Reported(chain, known, lo, hi) == chain[lo..x] + chain[x + 1..hi + 1]
    decreases hi
  {
    if x < hi {
      ReportedWithoutOne(chain, known, lo, hi - 1, x);
      assert !CarriesHash(chain, known, hi);
      WithoutOneGrows(chain, known, lo, hi, x, chain[lo..x]);
    } else {
      ReportedUpTo(chain, known, lo, x);
    }
  }

  /** Whatever top is known: all answered blocks are new iff none up to its height carries its hash. */
  lemma AllReportedIff(chain: seq<Block>, known: Block, lo: nat, hi: nat, blocks: seq<seq<Block>>)
    requires IsChain(chain) && IsAnswer(chain, lo, hi, blocks)
    ensures ScanAll(known, blocks).added == chain[lo..hi + 1]
       <==> forall x :: lo <= x <= hi ==> !CarriesHash(chain, known, x)
  {
    ScanAnswer(chain, known, lo, hi, blocks);
    if x :| lo <= x <= hi && CarriesHash(chain, known, x) {
      SliceHas(chain, lo, hi, x);
      if chain[x] in Reported(chain, known, lo, hi) {
        ReportedIsNew(chain, known, lo, hi, chain[x]);
      }
    } else {
      ReportedWhole(chain, known, lo, hi);
    }
  }

  /** The one block that does carry it is left out, and nothing else. */
  lemma KnownIsLeftOut(chain: seq<Block>, known: Block, lo: nat, hi: nat, blocks: seq<seq<Block>>, x: nat)
    requires IsChain(chain) && IsAnswer(chain, lo, hi, blocks) && lo <= x <= hi && CarriesHash(chain, known, x)
    requires forall y :: lo <= y <= hi && y != x ==> !CarriesHash(chain, known, y)
    ensures ScanAll(known, blocks).added == chain[lo..x] + chain[x + 1..hi + 1]
  {
    ScanAnswer(chain, known, lo, hi, blocks);
    ReportedWithoutOne(chain, known, lo, hi, x);
  }

  /** From height `f` up to the known height `k`, `next` has other blocks than `chain`. */
  ghost predicate ForksAt(chain: seq<Block>, next: seq<Block>, f: nat, k: nat) {
    && f <= k < |chain| && k < |next| && chain[..f] == next[..f]
    && forall x :: f <= x <= k ==> next[x].hash != chain[x].hash
  }

  /** The chain is reorganised: the blocks from the known height on are reported, the replaced ones below it not. */
  lemma ReorganisationReported(chain: seq<Block>, next: seq<Block>, f: nat, k: nat, hi: nat, blocks: seq<seq<Block>>)
    requires IsChain(chain) && IsChain(next) && ForksAt(chain, next, f, k) && IsAnswer(next, k, hi, blocks)
    ensures var sc := ScanAll(chain[k], blocks); sc.found && sc.top == next[hi] && sc.added == next[k..hi + 1]
  {
    ScanAnswer(next, chain[k], k, hi, blocks);
    assert forall x :: k <= x <= hi ==> !CarriesHash(next, chain[k], x);
    ReportedWhole(next, chain[k], k, hi);
  }

  /** So all blocks from the fork on are told exactly when the chain forks at the known top itself. */
  lemma ForkToldIff(chain: seq<Block>, next: seq<Block>, f: nat, k: nat, hi: nat, blocks: seq<seq<Block>>)
    requires IsChain(chain) && IsChain(next) && ForksAt(chain, next, f, k) && IsAnswer(next, k, hi, blocks)
    ensures (forall x :: f <= x <= hi ==> next[x] in ScanAll(chain[k], blocks).added) <==> f == k
  {
    ReorganisationReported(chain, next, f, k, hi, blocks);
    forall x | f <= x <= hi ensures next[x] in next[k..hi + 1] <==> k <= x {
      if k <= x {
        assert next[x] == next[k..hi + 1][x - k];
      }
    }
    assert f < k ==> next[f] !in next[k..hi + 1];
  }

  // ----- any answer at all -----

  /** The blocks of an answer in the order in which they are looked at. */
  function Flat(blocks: seq<seq<Block>>): seq<Block> {
    if blocks == [] then [] else Flat(blocks[..|blocks| - 1]) + blocks[|blocks| - 1]
  }

  lemma {:induction false} ScanGroupSnoc(known: Block, sc: Scan, bs: seq<Block>, b: Block)
    ensures ScanGroup(known, sc, bs + [b]) == ScanBlock(known, ScanGroup(known, sc, bs), b)
  {
    assert (bs + [b])[..|bs|] == bs;
  }

  lemma {:induction false} ScanGroupJoins(known: Block, sc: Scan, a: seq<Block>, b: seq<Block>)
    ensures ScanGroup(known, sc, a + b) == ScanGroup(known, ScanGroup(known, sc, a), b)
    decreases |b|
  {
    if b == [] {
      assert a + b == a;
    } else {
      var init, last := b[..|b| - 1], b[|b| - 1];
      ScanGroupJoins(known, sc, a, init);
      assert a + b == a + init + [last];
      ScanGroupSnoc(known, sc, a + init, last);
    }
  }

  lemma {:induction false} ScanIsFlat(known: Block, blocks: seq<seq<Block>>)
    ensures ScanAll(known, blocks) == ScanGroup(known, EMPTY_SCAN, Flat(blocks))
  {
    if blocks != [] {
      var n := |blocks| - 1;
      ScanIsFlat(known, blocks[..n]);
      ScanGroupJoins(known, EMPTY_SCAN, Flat(blocks[..n]), blocks[n]);
    }
  }

  /** Block `r` is the first of the highest blocks. */
  ghost predicate Peak(bs: seq<Block>, r: nat) {
    && r < |bs| && (forall j :: 0 <= j < r ==> bs[j].height < bs[r].height)
    && forall j :: r <= j < |bs| ==> bs[j].height <= bs[r].height
  }

  ghost predicate OrphansFrom(bs: seq<Block>, r: nat, to: nat) {
    r <= to <= |bs| && forall j :: r <= j < to ==> bs[j].orphaned
  }

  /** Block `i` is the first main-chain block from `r` on. */
  ghost predicate FirstMainFrom(bs: seq<Block>, r: nat, i: nat) {
    i < |bs| && !bs[i].orphaned && OrphansFrom(bs, r, i)
  }

  /** What the scan has found behind the first highest block: main-chain block `i`, or none if `i` is the end. */
  ghost predicate ScannedFrom(bs: seq<Block>, sc: Scan, r: nat, i: nat) {
    && Peak(bs, r) && sc.topHeight == bs[r].height && OrphansFrom(bs, r, i)
    && (sc.found <==> i < |bs|) && (i < |bs| ==> sc.top == bs[i] && !bs[i].orphaned)
  }

  lemma FirstScanned(known: Block, b: Block) returns (i: nat)
    ensures ScannedFrom([b], ScanBlock(known, EMPTY_SCAN, b), 0, i)
  {
    i := if b.orphaned then 1 else 0;
  }

  lemma NextScanned(known: Block, bs: seq<Block>, sc: Scan, r: nat, i: nat, b: Block) returns (r': nat, i': nat)
    requires ScannedFrom(bs, sc, r, i)
    ensures ScannedFrom(bs + [b], ScanBlock(known, sc, b), r', i')
  {
    r' := if sc.topHeight < b.height then |bs| else r;
    i' := if i < |bs| && r' == r then i else if b.orphaned then |bs| + 1 else |bs|;
    assert (bs + [b])[r'] == if r' == r then bs[r] else b;
  }

  lemma {:induction false} GroupTop(known: Block, bs: seq<Block>) returns (r: nat, i: nat)
    requires bs != []
    ensures ScannedFrom(bs, ScanGroup(known, EMPTY_SCAN, bs), r, i)
  {
    var init, last := bs[..|bs| - 1], bs[|bs| - 1];
    assert bs == init + [last];
    if init == [] {
      i := FirstScanned(known, last);
      r := 0;
    } else {
      r, i := GroupTop(known, init);
      r, i := NextScanned(known, init, ScanGroup(known, EMPTY_SCAN, init), r, i, last);
    }
  }

  lemma PeakIsOne(bs: seq<Block>, r: nat, q: nat)
    requires Peak(bs, r) && Peak(bs, q)
    ensures r == q
  {
    var a, b := bs[r].height, bs[q].height;
    assert (r < q ==> a < b) && (q < r ==> b < a);
  }

  /** Any answer is told iff a main-chain block comes with or behind its first highest block; the first is the top. */
  lemma ToldIff(known: Block, blocks: seq<seq<Block>>, r: nat)
    requires Peak(Flat(blocks), r)
    ensures var sc, bs := ScanAll(known, blocks), Flat(blocks);
            && (sc.found <==> !OrphansFrom(bs, r, |bs|))
            && (forall i: nat :: FirstMainFrom(bs, r, i) ==> sc.top == bs[i])
  {
    var bs := Flat(blocks);
    ScanIsFlat(known, blocks);
    var q, i := GroupTop(known, bs);
    PeakIsOne(bs, r, q);
  }

  /** An answer without blocks is not told. */
  lemma NothingTold(known: Block, blocks: seq<seq<Block>>)
    requires Flat(blocks) == []
    ensures !ScanAll(known, blocks).found
  {
    ScanIsFlat(known, blocks);
  }

  ghost predicate HeightsAscend(bs: seq<Block>) {
    forall i, j :: 0 <= i < j < |bs| ==> bs[i].height <= bs[j].height
  }

  /** Block `i` is on the main chain and no block is higher. */
  ghost predicate HighestMain(bs: seq<Block>, i: int) {
    0 <= i < |bs| && !bs[i].orphaned && forall j :: 0 <= j < |bs| ==> bs[j].height <= bs[i].height
  }

  lemma OrderedPeak(bs: seq<Block>, r: nat, j: nat)
    requires Peak(bs, r) && HeightsAscend(bs) && r <= j < |bs|
    ensures bs[j].height == bs[r].height
  {
  }

  /** With heights in order, as they are asked for, that is: iff one of the highest blocks is on the main chain. */
  lemma OrderedToldIff(known: Block, blocks: seq<seq<Block>>)
    requires HeightsAscend(Flat(blocks)) && Flat(blocks) != []
    ensures ScanAll(known, blocks).found <==> exists i :: HighestMain(Flat(blocks), i)
  {
    var bs := Flat(blocks);
    var r, i := GroupTop(known, bs);
    ToldIff(known, blocks, r);
    forall j | r <= j < |bs| ensures bs[j].height == bs[r].height {
      OrderedPeak(bs, r, j);
    }
    assert forall j :: HighestMain(bs, j) <==> r <= j < |bs| && !bs[j].orphaned;
  }

  /** Out of order it is not: orphans at the greatest height, yet a lower block is told as the top. */
  lemma LowerTopTold(known: Block, orphan: Block, main: Block)
    requires orphan.orphaned && !main.orphaned && main.height < orphan.height
    ensures var sc := ScanAll(known, [[orphan], [main]]); sc.found && sc.top == main
  {
    var blocks := [[orphan], [main]];
    assert Flat([[orphan]]) == Flat([]) + [orphan] == [orphan];
    assert blocks[..1] == [[orphan]];
    assert Flat(blocks) == [orphan] + [main];
    ToldIff(known, blocks, 0);
    assert FirstMainFrom(Flat(blocks), 0, 1);
  }
}
