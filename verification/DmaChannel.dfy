/** A block-DMA channel over its whole life: clients prepare and submit transfers, the hardware
    works off descriptors, and the tasklet resumes or completes transfers. */
module DmaChannel {
  import opened Fabric
  import opened DmaDescriptors
  import opened DmaRing
  import opened Trees

  const ENODEV: int := -19
  const EBUSY: int := -16
  const MIN_COOKIE: nat := 1

  const NREAD: nat := 0
  const LAST_NWRITE_R: nat := 1
  const ALL_NWRITE: nat := 2
  const ALL_NWRITE_R: nat := 3

  datatype Direction = DevToMem | MemToDev | Other
  datatype WriteType = RdwDefault | RdwAllNwrite | RdwAllNwriteR | RdwLastNwriteR

  /** The transaction type of a transfer. */
  function RequestType(dir: Direction, wr: WriteType): Option<nat> {
    match dir
    case DevToMem => Some(NREAD)
    case MemToDev =>
      Some(match wr
           case RdwAllNwrite => ALL_NWRITE
           case RdwAllNwriteR => ALL_NWRITE_R
           case _ => LAST_NWRITE_R)
    case Other => None
  }

  /** A submitted transfer: what the descriptors for its merged runs do, whether it asked for an interrupt,
      and the callback that its client set. */
  datatype Job = Job(moves: seq<Move>, interrupt: bool, callback: Option<nat>)

  ghost predicate Sized(tx: Tx) {
    Fits(tx) && EntriesFit(tx.sg)
  }

  /** All moves of a sequence of jobs, and the callbacks of those that asked for an interrupt and have one. */
  ghost function AllMoves(jobs: seq<Job>): seq<Move> {
    if jobs == [] then [] else AllMoves(jobs[..|jobs| - 1]) + jobs[|jobs| - 1].moves
  }

  ghost function AllCallbacks(jobs: seq<Job>): seq<nat> {
    if jobs == [] then []
    else
      var last := jobs[|jobs| - 1];
      AllCallbacks(jobs[..|jobs| - 1]) + if last.interrupt && last.callback.Some? then [last.callback.value] else []
  }

  /** The records of the pending transfers carry consecutive cookies after `completed`, and all of
      them but the first still stand for their whole job. */
  ghost predicate Books(txs: seq<Tx>, pending: seq<nat>, busy: bool, jobs: seq<Job>, completed: nat) {
    && MIN_COOKIE <= completed && |jobs| == completed - MIN_COOKIE + |pending|
    && (forall k: nat :: k < |pending| ==> Pend(txs, pending[k], jobs[completed - MIN_COOKIE + k], completed + 1 + k))
    && (forall k: nat :: k < |pending| && (busy ==> k > 0) ==>
          Untouched(txs, pending[k], jobs[completed - MIN_COOKIE + k]))
  }

  ghost predicate Pend(txs: seq<Tx>, d: nat, job: Job, cookie: nat) {
    d < |txs| && txs[d].cookie == cookie && txs[d].interrupt == job.interrupt && txs[d].callback == job.callback
    && Sized(txs[d])
  }

  ghost predicate Untouched(txs: seq<Tx>, d: nat, job: Job) {
    d < |txs| && Compiled(txs[d]) == job.moves && txs[d].sg != []
  }

  ghost predicate Ready(txs: seq<Tx>, d: nat) {
    d < |txs| && txs[d].sg != []
  }

  function Active(active: Option<nat>): seq<nat> { if active.Some? then [active.value] else [] }

  /** Every record is in exactly one place: the free list, the queue, at work, or with the client. */
  ghost predicate OneOwner(n: nat, free: seq<nat>, queue: seq<nat>, active: Option<nat>, prepared: set<nat>) {
    && NoRepeat(free) && NoRepeat(queue)
    && (forall d: nat :: d < n <==> d in free || d in queue || active == Some(d) || d in prepared)
    && (forall d <- free :: d !in queue && active != Some(d) && d !in prepared)
    && (forall d <- queue :: active != Some(d) && d !in prepared)
    && (active.Some? ==> active.value !in prepared)
  }

  ghost predicate AllReady(txs: seq<Tx>, prepared: set<nat>) {
    forall d <- prepared :: Ready(txs, d)
  }

  /** What the hardware did, will do for the descriptors in the ring, and is still to be asked for by the
      active transfer: together the jobs up to that one, in order. */
  ghost predicate LogOk(txs: seq<Tx>, active: Option<nat>, jobs: seq<Job>, completed: nat, hwLog: seq<Move>,
        toDo: seq<Move>) {
    && MIN_COOKIE <= completed <= MIN_COOKIE + |jobs|
    && (active.None? ==> toDo == [] && hwLog == AllMoves(jobs[..completed - MIN_COOKIE]))
    && (active.Some? ==> active.value < |txs| && completed - MIN_COOKIE < |jobs|
                         && AllMoves(jobs[..completed - MIN_COOKIE]) <= hwLog
                         && hwLog + toDo + Compiled(txs[active.value]) == AllMoves(jobs[..completed - MIN_COOKIE + 1]))
  }

  class Channel {
    const ring: Ring
    var txs: seq<Tx>
    var freeList: seq<nat>
    var queue: seq<nat>
    var activeTx: Option<nat>
    var cookie: nat
    var completedCookie: nat
    var done: bool
    var callbacks: seq<nat>
    ghost var prepared: set<nat>
    ghost var jobs: seq<Job>
    ghost var hwLog: seq<Move>

    ghost function Pending(): seq<nat>
      reads this`activeTx, this`queue
    {
      Active(activeTx) + queue
    }

    ghost function Finished(): seq<Job>
      reads this`completedCookie, this`jobs
      requires MIN_COOKIE <= completedCookie && completedCookie - MIN_COOKIE <= |jobs|
    {
      jobs[..completedCookie - MIN_COOKIE]
    }

    /** What holds under the channel lock: every record has one owner, and what the hardware did, will
        do for the descriptors in the ring, and is still asked to do makes up the jobs in order. */
    ghost predicate Core()
      reads this`txs, this`freeList, this`queue, this`activeTx, this`cookie, this`completedCookie, this`prepared,
            this`jobs, this`hwLog, ring, ring.bd
    {
      && ring.Valid() && ring.wrCountNext == ring.wrCount
      && OneOwner(|txs|, freeList, queue, activeTx, prepared)
      && cookie == MIN_COOKIE + |jobs|
      && Books(txs, Pending(), activeTx.Some?, jobs, completedCookie)
      && AllReady(txs, prepared)
      && (activeTx.None? ==> ring.Idle())
      && LogOk(txs, activeTx, jobs, completedCookie, hwLog, Exec(ring.bd[..], ring.drdcnt, ring.dwrcnt))
    }

    /** Work is under way or its end is signalled, unless there is none. */
    ghost predicate Steady()
      reads this`done, this`txs, this`freeList, this`queue, this`activeTx, this`cookie, this`completedCookie,
            this`prepared, this`jobs, this`hwLog, ring, ring.bd
    {
      Core() && (activeTx.None? ==> queue == [] && !done) && (activeTx.Some? ==> (done <==> ring.Idle()))
    }

    ghost predicate Valid()
      reads this, ring, ring.bd
    {
      Steady() && callbacks == AllCallbacks(Finished())
    }

    /** `tsi721_alloc_chan_resources`. */
    constructor (bdNum: nat, queueSize: nat, sysSize: nat, phys: nat)
      requires 1 <= bdNum && sysSize < 2
      ensures Valid() && |txs| == queueSize && jobs == [] && hwLog == [] && callbacks == [] && prepared == {}
      ensures |freeList| == queueSize && forall i: nat :: i < queueSize ==> freeList[i] == queueSize - 1 - i
    {
      hide OneOwner;
      ring := new Ring(bdNum, sysSize, phys);
      txs := seq(queueSize, _ => Tx(0, 0, 0, 0, [], 0, false, None));
      freeList := seq(queueSize, i requires 0 <= i < queueSize => queueSize - 1 - i);
      queue, activeTx, prepared := [], None, {};
      cookie, completedCookie := MIN_COOKIE, MIN_COOKIE;
      done, callbacks, jobs, hwLog := false, [], [], [];
      new;
      CountDown(queueSize, freeList);
    }

    /** `tsi721_prep_rio_sg`. */
    method Prep(sg: seq<Sg>, destid: nat, rioAddr: nat, dir: Direction, wr: WriteType, interrupt: bool)
      returns (err: int, d: nat)
      requires Valid()
      modifies this`txs, this`freeList, this`prepared
      ensures Valid() && jobs == old(jobs)
      ensures err == if sg == [] || dir == Other then EINVAL else if old(freeList) == [] then EBUSY else 0
      ensures err != 0 ==> txs == old(txs) && freeList == old(freeList) && prepared == old(prepared)
      ensures err == 0 ==> d == old(freeList)[0] && freeList == old(freeList)[1..] && prepared == old(prepared) + {d}
      ensures err == 0 ==>
                && d < |old(txs)|
                && txs == old(txs)[d := Tx(destid, txs[d].rtype, rioAddr, 0, sg, old(txs)[d].cookie, interrupt,
                      old(txs)[d].callback)]
                && txs[d].rtype == if dir == DevToMem then NREAD else if wr == RdwAllNwrite then ALL_NWRITE
                                   else if wr == RdwAllNwriteR then ALL_NWRITE_R else LAST_NWRITE_R
    {
      hide Books, Exec, OneOwner, AllReady, LogOk, Sized, Compiled;
      if sg == [] {
        return EINVAL, 0;
      }
      var rtype := RequestType(dir, wr);
      if rtype.None? {
        return EINVAL, 0;
      }
      if freeList == [] {
        return EBUSY, 0;
      }
      d := freeList[0];
      TakeFree(|txs|, freeList, queue, activeTx, prepared);
      var tx := Tx(destid, rtype.value, rioAddr, 0, sg, txs[d].cookie, interrupt, txs[d].callback);
      Rewritten(d, tx);
      AllReadyMore(txs, prepared, d, tx);
      freeList := freeList[1..];
      txs := txs[d := tx];
      prepared := prepared + {d};
      err := 0;
    }

    /** The client sets its callback between preparing and submitting. */
    method SetCallback(d: nat, callback: Option<nat>)
      requires Valid() && d in prepared
      modifies this`txs
      ensures Valid() && d < |txs| && |txs| == |old(txs)| && txs == old(txs)[d := old(txs)[d].(callback := callback)]
    {
      hide Books, Exec, OneOwner, AllReady, LogOk, Sized, Compiled;
      ToQueue(|txs|, freeList, queue, activeTx, prepared, d);
      ReadyAt(txs, prepared, d);
      var tx := txs[d].(callback := callback);
      Rewritten(d, tx);
      AllReadyMore(txs, prepared, d, tx);
      assert prepared + {d} == prepared;
      txs := txs[d := tx];
    }

    /** A record that is not pending may change. */
    lemma {:induction false} Rewritten(d: nat, tx: Tx)
      requires Core() && d < |txs| && d !in Pending()
      ensures Books(txs[d := tx], Pending(), activeTx.Some?, jobs, completedCookie)
      ensures LogOk(txs[d := tx], activeTx, jobs, completedCookie, hwLog, Exec(ring.bd[..], ring.drdcnt, ring.dwrcnt))
    {
      hide Exec, OneOwner, AllReady, Books, Compiled;
      BooksElsewhere(txs, txs[d := tx], Pending(), activeTx.Some?, jobs, completedCookie, d);
      if activeTx.Some? { assert Pending()[0] == activeTx.value; }
    }

    /** `tsi721_tx_submit`. */
    method Submit(d: nat) returns (rc: int)
      requires Valid() && d < |txs| && activeTx != Some(d) && (d in prepared ==> Sized(txs[d]))
      modifies this, ring, ring.bd
      ensures Valid() && hwLog == old(hwLog) && callbacks == old(callbacks) && completedCookie == old(completedCookie)
      ensures d !in old(prepared) ==> rc == EIO && jobs == old(jobs) && prepared == old(prepared)
      ensures d in old(prepared) ==>
                && rc == cookie == old(cookie) + 1 && prepared == old(prepared) - {d}
                && jobs == old(jobs) + [Job(Compiled(old(txs[d])), old(txs[d].interrupt), old(txs[d].callback))]
                && (jobs[|old(jobs)|].moves == Rest(old(txs[d])) <==> NoEmptyRun(old(txs[d]).sg))
    {
      hide Books, Exec, OneOwner, AllReady, LogOk, Sized, Compiled, AllCallbacks, AllMoves, Rest, NoEmptyRun;
      CompiledExact(txs[d]);
      Place(|txs|, freeList, queue, activeTx, prepared, d);
      if d in freeList || d in queue {
        return EIO;
      }
      CountsFit(txs, Pending(), activeTx.Some?, jobs, completedCookie);
      rc := AssignCookie(d);
      assert Finished() == old(Finished());
      AdvanceWork(None);
    }

    /** `dma_cookie_assign`, and the transfer goes to the end of the queue. */
    method AssignCookie(d: nat) returns (rc: int)
      requires Core() && d in prepared && d < |txs| && Sized(txs[d])
      modifies this`cookie, this`txs, this`queue, this`jobs, this`prepared
      ensures Core() && rc == cookie == old(cookie) + 1 && prepared == old(prepared) - {d} && |txs| == |old(txs)|
      ensures jobs == old(jobs) + [Job(Compiled(old(txs)[d]), old(txs)[d].interrupt, old(txs)[d].callback)]
    {
      hide Books, Exec, OneOwner, AllReady, LogOk, Sized, Compiled, AllMoves;
      ToQueue(|txs|, freeList, queue, activeTx, prepared, d);
      ReadyAt(txs, prepared, d);
      ghost var job := Job(Compiled(txs[d]), txs[d].interrupt, txs[d].callback);
      rc := cookie + 1;
      if rc < MIN_COOKIE {
        rc := MIN_COOKIE;
      }
      var tx := txs[d].(cookie := rc);
      Rewritten(d, tx);
      Queued(d, tx, job);
      AllReadyLess(txs, prepared, d, tx);
      cookie := rc;
      txs := txs[d := tx];
      queue := queue + [d];
      jobs := jobs + [job];
      prepared := prepared - {d};
    }

    lemma {:induction false} Queued(d: nat, tx: Tx, job: Job)
      requires Core() && d < |txs| && Books(txs[d := tx], Pending(), activeTx.Some?, jobs, completedCookie)
      requires LogOk(txs[d := tx], activeTx, jobs, completedCookie, hwLog, Exec(ring.bd[..], ring.drdcnt, ring.dwrcnt))
      requires tx == txs[d].(cookie := cookie + 1) && Ready(txs, d) && Sized(txs[d])
      requires job == Job(Compiled(txs[d]), txs[d].interrupt, txs[d].callback)
      ensures Books(txs[d := tx], Active(activeTx) + (queue + [d]), activeTx.Some?, jobs + [job], completedCookie)
      ensures LogOk(txs[d := tx], activeTx, jobs
            + [job], completedCookie, hwLog, Exec(ring.bd[..], ring.drdcnt, ring.dwrcnt))
    {
      hide Exec, OneOwner, AllReady, Compiled, AllMoves, Books;
      PlainSized(txs[d], tx);
      assert Compiled(tx) == Compiled(txs[d]) by { SameRest(txs[d], tx); }
      CountsFit(txs, Pending(), activeTx.Some?, jobs, completedCookie);
      BooksMore(txs[d := tx], Pending(), activeTx.Some?, jobs, completedCookie, d, job);
      assert Pending() + [d] == Active(activeTx) + (queue + [d]);
      var n := completedCookie - MIN_COOKIE;
      assert (jobs + [job])[..n] == jobs[..n];
      assert activeTx.Some? ==> (jobs + [job])[..n + 1] == jobs[..n + 1];
    }

    /** `tsi721_advance_work`. */
    method AdvanceWork(desc: Option<nat>)
      requires Core()
      requires desc.Some? ==> desc == activeTx && ring.Idle() && !done && desc.value < |txs| && txs[desc.value].sg != []
      requires desc.None? ==> (activeTx.None? ==> !done) && (activeTx.Some? ==> (done <==> ring.Idle()))
      modifies this`txs, this`queue, this`activeTx, ring, ring.bd
      ensures Steady()
    {
      hide Books, Exec, OneOwner, AllReady, LogOk, Sized, Compiled;
      if !ring.Idle() {
        return;
      }
      var d := desc;
      if d == None && activeTx == None && queue != [] {
        d := Some(queue[0]);
        Fetch();
      }
      if d.Some? {
        Resume(d.value);
      }
    }

    /** The first transfer of the queue becomes the active one. */
    method Fetch()
      requires Core() && activeTx.None? && queue != []
      modifies this`queue, this`activeTx
      ensures Core() && activeTx == Some(old(queue)[0]) && activeTx.value < |txs| && txs[activeTx.value].sg != []
    {
      hide Books, Exec, OneOwner, AllReady, Sized, Compiled, AllMoves;
      Dequeue(|txs|, freeList, queue, prepared);
      FirstPending(txs, Pending(), jobs, completedCookie);
      AllMovesNext(jobs, completedCookie - MIN_COOKIE);
      assert Pending() == Active(Some(queue[0])) + queue[1..];
      queue, activeTx := queue[1..], Some(queue[0]);
    }

    /** Descriptors for the next part of the active transfer go into the ring, and the hardware starts. */
    method Resume(d: nat)
      requires Core() && activeTx == Some(d) && ring.Idle() && !done && d < |txs| && txs[d].sg != []
      modifies this`txs, ring, ring.bd
      ensures Steady()
    {
      hide Books, Exec, OneOwner, AllReady, Compiled, AllMoves, Issued, Fits, Effect;
      FirstSized(txs, Pending(), jobs, completedCookie);
      NoExec(ring.bd[..], ring.drdcnt);
      var err, tx := ring.SubmitSg(txs[d]);
      StillSized(txs[d], tx);
      Release(|txs|, freeList, queue, d, prepared);
      BooksActive(txs, tx, Pending(), jobs, completedCookie);
      AllReadyElsewhere(txs, prepared, d, tx);
      txs := txs[d := tx];
      ring.StartDma();
    }

    /** The hardware carries out one descriptor and signals when it has done the last one. */
    method HardwareStep()
      requires Valid() && !ring.Idle()
      modifies this`hwLog, this`done, ring`drdcnt
      ensures Valid() && ring.drdcnt == old(ring.drdcnt) + 1 && old(hwLog) <= hwLog
    {
      hide Books, Exec, OneOwner, AllReady, Compiled, AllMoves;
      ghost var moved := ring.Execute();
      hwLog := hwLog + moved;
      done := ring.Idle();
    }

    /** `tsi721_dma_tasklet` when the channel signals the end of its work. */
    method Tasklet()
      requires Valid()
      modifies this, ring, ring.bd
      ensures Valid() && jobs == old(jobs) && hwLog == old(hwLog) && prepared == old(prepared) && cookie == old(cookie)
      ensures completedCookie == old(completedCookie) || completedCookie == old(completedCookie) + 1
      ensures completedCookie == old(completedCookie) + 1 <==>
                old(done && activeTx.value < |txs| && txs[activeTx.value].sg == [])
      ensures completedCookie == old(completedCookie) ==> callbacks == old(callbacks) && freeList == old(freeList)
      ensures completedCookie == old(completedCookie) + 1 ==>
                var tx := old(txs[activeTx.value]);
                && freeList == [old(activeTx.value)] + old(freeList)
                && callbacks == old(callbacks)
                 + if tx.interrupt && tx.callback.Some? then [tx.callback.value] else []
    {
      hide Books, Exec, OneOwner, AllReady, LogOk, Sized, Compiled, AllMoves, AllCallbacks;
      var dmacInt := done;
      done := false;
      CountsFit(txs, Pending(), activeTx.Some?, jobs, completedCookie);
      if dmacInt {
        var d := activeTx.value;
        FirstSized(txs, Pending(), jobs, completedCookie);
        if txs[d].sg == [] {
          Finish(d);
        } else {
          AdvanceWork(activeTx);
        }
      }
    }

    /** The end of a transfer: the next one starts, then the callback is called. */
    method Finish(d: nat)
      requires Core() && activeTx == Some(d) && ring.Idle() && !done && d < |txs| && txs[d].sg == []
      requires MIN_COOKIE <= completedCookie && completedCookie - MIN_COOKIE <= |jobs|
      requires callbacks == AllCallbacks(Finished())
      modifies this, ring, ring.bd
      ensures Valid() && jobs == old(jobs) && hwLog == old(hwLog) && prepared == old(prepared) && cookie == old(cookie)
      ensures completedCookie == old(completedCookie) + 1 && freeList == [d] + old(freeList)
      ensures callbacks == old(callbacks)
            + if old(txs[d].interrupt && txs[d].callback.Some?) then [old(txs[d].callback.value)] else []
    {
      hide Core, AllMoves, AllCallbacks;
      var callback := if txs[d].interrupt then txs[d].callback else None;
      ghost var n := completedCookie - MIN_COOKIE;
      Complete(d);
      AllCallbacksNext(jobs, n);
      AdvanceWork(None);
      if callback.Some? {
        callbacks := callbacks + [callback.value];
      }
      assert Finished() == jobs[..n + 1];
    }

    /** `dma_cookie_complete`; the record goes back to the free list. */
    method Complete(d: nat)
      requires Core() && activeTx == Some(d) && ring.Idle() && d < |txs| && txs[d].sg == []
      modifies this`txs, this`completedCookie, this`freeList, this`activeTx
      ensures Core() && activeTx == None && completedCookie == old(completedCookie) + 1
      ensures old(completedCookie) - MIN_COOKIE < |jobs|
      ensures freeList == [d] + old(freeList)
      ensures jobs[old(completedCookie) - MIN_COOKIE].interrupt == old(txs)[d].interrupt
      ensures jobs[old(completedCookie) - MIN_COOKIE].callback == old(txs)[d].callback
    {
      hide Books, Exec, OneOwner, AllReady, Compiled, AllMoves;
      NoExec(ring.bd[..], ring.drdcnt);
      FirstSized(txs, Pending(), jobs, completedCookie);
      Release(|txs|, freeList, queue, d, prepared);
      NothingLeft(txs[d]);
      var tx := txs[d].(cookie := 0);
      assert Pending() == [d] + queue;
      BooksLess(txs, d, tx, queue, jobs, completedCookie);
      AllReadyElsewhere(txs, prepared, d, tx);
      completedCookie := txs[d].cookie;
      txs := txs[d := tx];
      freeList := [d] + freeList;
      activeTx := None;
      assert Pending() == queue;
    }

    /** `tsi721_tx_status`, with the kernel's comparison of cookies. */
    method TxStatus(c: nat) returns (complete: bool)
      requires Valid()
      ensures MIN_COOKIE < c <= cookie ==> (complete <==> c - MIN_COOKIE <= |Finished()|)
    {
      complete := if completedCookie <= cookie then c <= completedCookie || c > cookie
                  else c <= completedCookie && c > cookie;
    }

    /** In every state: the hardware has done all finished jobs and at most a part of the next one, byte by
        byte in order of submission; nothing is forgotten; callbacks fired once, in order. */
    lemma {:induction false} InOrder()
      requires Valid()
      ensures AllMoves(Finished()) <= hwLog <= AllMoves(jobs)
      ensures activeTx.None? ==> Finished() == jobs && hwLog == AllMoves(jobs)
      ensures activeTx.Some? ==>
                hwLog <= AllMoves(jobs[..completedCookie - MIN_COOKIE + 1]) && (!ring.Idle() || done)
      ensures callbacks == AllCallbacks(Finished())
    {
      hide Exec, OneOwner, AllReady, Compiled, AllCallbacks;
      CountsFit(txs, Pending(), activeTx.Some?, jobs, completedCookie);
      MovesGrow(jobs, completedCookie - MIN_COOKIE);
      if activeTx.Some? {
        MovesGrow(jobs, completedCookie - MIN_COOKIE + 1);
      } else {
        assert jobs[..completedCookie - MIN_COOKIE] == jobs;
      }
    }
  }

  // ----- owners

  lemma {:induction false} CountDown(n: nat, list: seq<nat>)
    requires list == seq(n, i requires 0 <= i < n => n - 1 - i)
    ensures OneOwner(n, list, [], None, {})
  {
    forall d: nat | d < n ensures d in list {
      assert list[n - 1 - d] == d;
    }
  }

  lemma {:induction false} TakeFree(n: nat, free: seq<nat>, queue: seq<nat>, active: Option<nat>, prepared: set<nat>)
    requires OneOwner(n, free, queue, active, prepared) && free != []
    ensures OneOwner(n, free[1..], queue, active, prepared + {free[0]})
    ensures free[0] < n && free[0] !in queue && active != Some(free[0]) && free[0] !in prepared
  {
    var d := free[0];
    assert forall e: nat :: e in free <==> e == d || e in free[1..];
  }

  lemma {:induction false} Place(n: nat, free: seq<nat>, queue: seq<nat>, active: Option<nat>, prepared: set<nat>,
        d: nat)
    requires OneOwner(n, free, queue, active, prepared) && d < n && active != Some(d)
    ensures d in prepared <==> d !in free && d !in queue
  {
  }

  lemma {:induction false} ToQueue(n: nat, free: seq<nat>, queue: seq<nat>, active: Option<nat>, prepared: set<nat>,
        d: nat)
    requires OneOwner(n, free, queue, active, prepared) && d in prepared
    ensures OneOwner(n, free, queue + [d], active, prepared - {d}) && d < n && d !in Active(active) + queue
  {
  }

  lemma {:induction false} Dequeue(n: nat, free: seq<nat>, queue: seq<nat>, prepared: set<nat>)
    requires OneOwner(n, free, queue, None, prepared) && queue != []
    ensures OneOwner(n, free, queue[1..], Some(queue[0]), prepared)
  {
    assert forall e: nat :: e in queue <==> e == queue[0] || e in queue[1..];
  }

  lemma {:induction false} Release(n: nat, free: seq<nat>, queue: seq<nat>, d: nat, prepared: set<nat>)
    requires OneOwner(n, free, queue, Some(d), prepared)
    ensures OneOwner(n, [d] + free, queue, None, prepared) && NoRepeat([d] + queue) && d !in queue && d !in prepared
  {
  }

  // ----- books

  /** Records that are not pending do not matter. */
  lemma {:induction false} BooksElsewhere(txs: seq<Tx>, txs': seq<Tx>, pending: seq<nat>, busy: bool, jobs: seq<Job>,
        completed: nat, d: nat)
    requires Books(txs, pending, busy, jobs, completed) && d !in pending && d < |txs| == |txs'|
    requires txs' == txs[d := txs'[d]]
    ensures Books(txs', pending, busy, jobs, completed)
  {
    hide Sized;
    forall k: nat | k < |pending|
      ensures Pend(txs', pending[k], jobs[completed - MIN_COOKIE + k], completed + 1 + k)
      ensures (busy ==> k > 0) ==> Untouched(txs', pending[k], jobs[completed - MIN_COOKIE + k])
    {
      assert pending[k] in pending;
      assert Pend(txs, pending[k], jobs[completed - MIN_COOKIE + k], completed + 1 + k);
    }
  }

  lemma {:induction false} BooksMore(txs: seq<Tx>, pending: seq<nat>, busy: bool, jobs: seq<Job>, completed: nat,
        d: nat, job: Job)
    requires Books(txs, pending, busy, jobs, completed) && (busy ==> pending != [])
    requires Pend(txs, d, job, completed + 1 + |pending|) && Untouched(txs, d, job)
    ensures Books(txs, pending + [d], busy, jobs + [job], completed)
  {
    hide Pend, Untouched;
    var all, more := pending + [d], jobs + [job];
    forall k: nat | k < |all|
      ensures Pend(txs, all[k], more[completed - MIN_COOKIE + k], completed + 1 + k)
      ensures (busy ==> k > 0) ==> Untouched(txs, all[k], more[completed - MIN_COOKIE + k])
    {
      if k < |pending| { assert Pend(txs, pending[k], jobs[completed - MIN_COOKIE + k], completed + 1 + k); }
    }
  }

  lemma {:induction false} FirstPending(txs: seq<Tx>, pending: seq<nat>, jobs: seq<Job>, completed: nat)
    requires Books(txs, pending, false, jobs, completed) && pending != []
    ensures Books(txs, pending, true, jobs, completed)
    ensures completed - MIN_COOKIE < |jobs| && pending[0] < |txs|
    ensures Compiled(txs[pending[0]]) == jobs[completed - MIN_COOKIE].moves && txs[pending[0]].sg != []
  {
    hide Compiled;
    assert Untouched(txs, pending[0], jobs[completed - MIN_COOKIE]);
  }

  lemma {:induction false} FirstSized(txs: seq<Tx>, pending: seq<nat>, jobs: seq<Job>, completed: nat)
    requires Books(txs, pending, true, jobs, completed) && pending != []
    ensures completed - MIN_COOKIE < |jobs| && Pend(txs, pending[0], jobs[completed - MIN_COOKIE], completed + 1)
  {
  }

  lemma {:induction false} BooksActive(txs: seq<Tx>, tx: Tx, pending: seq<nat>, jobs: seq<Job>, completed: nat)
    requires Books(txs, pending, true, jobs, completed) && pending != [] && pending[0] < |txs| && NoRepeat(pending)
    requires Sized(tx) && tx.cookie == txs[pending[0]].cookie && tx.interrupt == txs[pending[0]].interrupt
    requires tx.callback == txs[pending[0]].callback
    ensures Books(txs[pending[0] := tx], pending, true, jobs, completed)
  {
    hide Sized, Compiled;
  }

  lemma {:induction false} BooksLess(txs: seq<Tx>, d: nat, tx: Tx, queue: seq<nat>, jobs: seq<Job>, completed: nat)
    requires Books(txs, [d] + queue, true, jobs, completed) && d < |txs| && d !in queue
    ensures Books(txs[d := tx], queue, false, jobs, completed + 1)
  {
    hide Sized, Compiled;
    var all := [d] + queue;
    forall k: nat | k < |queue|
      ensures Pend(txs[d := tx], queue[k], jobs[completed + 1 - MIN_COOKIE + k], completed + 2 + k)
      ensures Untouched(txs[d := tx], queue[k], jobs[completed + 1 - MIN_COOKIE + k])
    {
      assert queue[k] == all[k + 1];
      assert Pend(txs, all[k + 1], jobs[completed - MIN_COOKIE + (k + 1)], completed + 1 + (k + 1));
    }
  }

  lemma {:induction false} CountsFit(txs: seq<Tx>, pending: seq<nat>, busy: bool, jobs: seq<Job>, completed: nat)
    requires Books(txs, pending, busy, jobs, completed)
    ensures MIN_COOKIE <= completed && |jobs| == completed - MIN_COOKIE + |pending|
  {
  }

  lemma {:induction false} PlainSized(a: Tx, b: Tx)
    requires Sized(a) && b == a.(cookie := b.cookie)
    ensures Sized(b)
  {
  }

  lemma {:induction false} SameRest(a: Tx, b: Tx)
    requires b == a.(cookie := b.cookie)
    ensures Compiled(a) == Compiled(b)
  {
  }

  lemma {:induction false} NothingLeft(tx: Tx)
    requires tx.sg == []
    ensures Compiled(tx) == []
  {
  }

  lemma {:induction false} ReadyAt(txs: seq<Tx>, prepared: set<nat>, d: nat)
    requires AllReady(txs, prepared) && d in prepared
    ensures Ready(txs, d) && d < |txs| && txs[d].sg != []
  {
  }

  lemma {:induction false} AllReadyMore(txs: seq<Tx>, prepared: set<nat>, d: nat, tx: Tx)
    requires AllReady(txs, prepared) && d < |txs| && tx.sg != []
    ensures AllReady(txs[d := tx], prepared + {d})
  {
    forall e <- prepared + {d} ensures Ready(txs[d := tx], e) {
      if e != d { assert Ready(txs, e); }
    }
  }

  lemma {:induction false} AllReadyLess(txs: seq<Tx>, prepared: set<nat>, d: nat, tx: Tx)
    requires AllReady(txs, prepared) && d < |txs|
    ensures AllReady(txs[d := tx], prepared - {d})
  {
    forall e <- prepared - {d} ensures Ready(txs[d := tx], e) {
      assert Ready(txs, e);
    }
  }

  lemma {:induction false} AllReadyElsewhere(txs: seq<Tx>, prepared: set<nat>, d: nat, tx: Tx)
    requires AllReady(txs, prepared) && d < |txs| && d !in prepared
    ensures AllReady(txs[d := tx], prepared)
  {
    AllReadyLess(txs, prepared, d, tx);
    assert prepared - {d} == prepared;
  }

  lemma {:induction false} StillSized(tx: Tx, rest: Tx)
    requires Sized(tx) && Fits(rest) && |rest.sg| <= |tx.sg| && rest.sg == tx.sg[|tx.sg| - |rest.sg|..]
    ensures Sized(rest)
  {
  }

  // ----- jobs

  lemma {:induction false} AllMovesNext(jobs: seq<Job>, n: nat)
    requires n < |jobs|
    ensures AllMoves(jobs[..n + 1]) == AllMoves(jobs[..n]) + jobs[n].moves
  {
    assert jobs[..n + 1][..n] == jobs[..n];
  }

  lemma {:induction false} MovesGrow(jobs: seq<Job>, n: nat)
    requires n <= |jobs|
    ensures AllMoves(jobs[..n]) <= AllMoves(jobs)
    decreases |jobs| - n
  {
    if n < |jobs| {
      AllMovesNext(jobs, n);
      MovesGrow(jobs, n + 1);
    } else {
      assert jobs[..n] == jobs;
    }
  }

  lemma {:induction false} AllCallbacksNext(jobs: seq<Job>, n: nat)
    requires n < |jobs|
    ensures AllCallbacks(jobs[..n + 1]) == AllCallbacks(jobs[..n])
         + if jobs[n].interrupt && jobs[n].callback.Some? then [jobs[n].callback.value] else []
  {
    assert jobs[..n + 1][..n] == jobs[..n];
  }

  lemma {:induction false} NoExec(bd: seq<Bd>, at: nat)
    requires |bd| > 0
    ensures Exec(bd, at, at) == []
  {
  }
}
