/**
  The block cache of src/fs/cache.c in its own, imperative form.  The ghost
  field `st` is the state of the log machine that the fields stand for.  The
  methods that write sectors drive that machine, so whatever holds of its runs
  holds between any two of their device writes.
 */
module BlockCache {
  import opened LogMachine
  import opened LogHistory
  import opened LogInvariant
  import opened LogRuns
  import opened LogTheorems
  import opened CacheList
  import opened CacheRefinement

  class BlockCache {
    const g: Geometry
    var disk: Disk
    var list: List        // head.next first
    var header: Sector
    var ops: seq<OpStatus>
    var outstanding: int
    var mu: int
    var committing: bool
    ghost var st: State

    ghost predicate Valid()
      reads this
    {
      && 1 <= g.numLog
      && st.disk == disk && st.header == header
      && st.ops == ops && st.outstanding == outstanding && st.mu == mu && st.committing == committing
      && Represents(list, st.cache)
    }

    /** The kernel has just been switched on with disk `d`. */
    constructor (g: Geometry, d: Disk)
      requires Mountable(g, d)
      ensures this.g == g && Valid() && st == PowerOn(d) && list == []
      ensures Inv(g, Recovered(g, d), st)
    {
      this.g := g;
      disk, list, header, ops, outstanding, mu, committing := d, [], ZeroSector(), [], 0, 0, false;
      st := PowerOn(d);
      PowerOnInvariant(g, d);
    }

    /** The work of cache_acquire on the list, for a block that nobody holds: the
        search, the eviction loop and the load. */
    method TakeBlock(b: nat, who: nat)
      requires BlockSector(b) < |disk|
      modifies this`list
      ensures list == Acquired(old(list), disk, b, who)
    {
      var i := 0;
      while i < |list| && list[i].no != b
        invariant 0 <= i <= |list|
        invariant forall j :: 0 <= j < i ==> list[j].no != b
      {
        i := i + 1;
      }
      assert IndexOf(list, b) == i;
      if i < |list| {
        var e := list[i].(holder := Some(who));
        list := [e] + list[..i] + list[i + 1..];
        assert list == MoveToFront(old(list)[i := e], i);
        return;
      }
      EvictOld();
      list := [CachedBlock(b, disk[BlockSector(b)], true, false, Some(who), false)] + list;
    }

    /** The eviction loop of cache_acquire. */
    method EvictOld()
      modifies this`list
      ensures list == AfterEviction(old(list))
    {
      var sz := |list|;
      var q := sz - 1;
      assert list[..q + 1] == list && list[q + 1..] == [];
      while sz >= EVICTION_THRESHOLD && q >= 0
        invariant -1 <= q < |list| && sz == |list|
        invariant AfterEviction(old(list)) == EvictTail(list[..q + 1], sz - EVICTION_THRESHOLD + 1) + list[q + 1..]
      {
        hide EvictTail, AfterEviction;
        EvictOne(list, q, sz - EVICTION_THRESHOLD + 1);
        if !list[q].pinned && !list[q].acquired {
          list := list[..q] + list[q + 1..];
          sz := sz - 1;
        }
        q := q - 1;
      }
      assert list[..q + 1] + list[q + 1..] == list;
    }

    /** The work of cache_release on the list. */
    method GiveBack(b: nat)
      modifies this`list
      ensures list == Released(old(list), b)
    {
      var i := IndexOf(list, b);
      if i < |list| {
        list := list[i := list[i].(acquired := false, holder := None)];
      }
    }

    /** cache_acquire.  It is a run of Evict steps and the Acquire step of the log
        machine, and gives the current contents of the block, exactly when it
        evicts no block that somebody holds.  Otherwise `st` stays as it is, since by
        `NoRunLosesHeld` no such run leads to the new list. */
    method Acquire(b: nat, who: nat, ghost init: Image) returns (data: Sector, ghost steps: seq<Step>)
      requires Valid() && Inv(g, init, st) && Booted(st.phase) && IsDataBlock(g, b) && !Held(st, b)
      modifies this`list, this`st
      ensures Valid() <==> HeldStay(old(list), list)
      ensures HoldersFlagged(old(list)) ==> Valid()
      ensures Valid() ==>
        && Legal(g, old(st), steps) && st == Exec(g, old(st), steps) && Inv(g, init, st)
        && steps != [] && steps[|steps| - 1] == Step.Acquire(who, b)
        && (forall i :: 0 <= i < |steps| - 1 ==> steps[i].Evict?)
        && st == old(st).(cache := st.cache) && b in st.cache && Cached(list, b)
        && st.cache[b].holder == Some(who) && !st.cache[b].dirty && data == st.cache[b].data
        && b < |Current(init, st)| && data == Current(init, st)[b] && Current(init, st) == Current(init, old(st))
        && SameOthers(old(st).cache, st.cache, b)
      ensures HoldersFlagged(old(list)) ==> FlaggedExcept(list, {b})
    {
      hide Inv, Represents, Legal, Exec, Current, Acquired, HeldStay, FlaggedExcept;
      SectorOk(g, init, st, b);
      HeldStayAcquired(list, st.cache, disk, b, who);
      if b !in st.cache && HoldersFlagged(list) {
        FlaggedStay(list, st.cache, |list| - EVICTION_THRESHOLD + 1);
      }
      if HoldersFlagged(list) {
        FlaggedAcquired(list, disk, b, who, {});
        assert {} + {b} == {b};
      }
      ghost var before := list;
      TakeBlock(b, who);
      FrontBlock(before, disk, b, who);
      data := list[0].data;
      steps := [];
      if HeldStay(before, list) {
        ghost var s0 := st;
        ghost var t;
        steps, t := AcquireRefines(g, init, st, before, b, who);
        st := t;
        EvictsThenAcquire(g, s0, steps, t, b);
        CleanIsCurrent(g, init, st, b);
        SameImages(init, s0, st);
        FrontEntry(list, st.cache, b);
      } else {
        Unrepresented(g, st, before, list);
      }
    }

    /** cache_release, of a block that its holder has synced if it changed it. */
    method Release(b: nat, who: nat, ghost init: Image)
      requires Valid() && Inv(g, init, st) && b in st.cache && st.cache[b].holder == Some(who) && !st.cache[b].dirty
      modifies this`list, this`st
      ensures Valid() && Inv(g, init, st)
      ensures old(Enabled(g, st, Step.Release(who, b))) && st == Next(g, old(st), Step.Release(who, b))
      ensures FlaggedExcept(old(list), {b}) ==> HoldersFlagged(list)
    {
      hide Inv, Represents, FlaggedExcept;
      NumLogOk(g, init, st);
      ReleaseEffect(g, st, b, who);
      CacheRefinement.Release(list, st.cache, b);
      DistinctList(list, st.cache);
      if FlaggedExcept(list, {b}) {
        FlaggedReleased(list, b, {b});
        assert {b} - {b} == {};
      }
      KeepsInvariant(g, init, st, Step.Release(who, b));
      GiveBack(b);
      st := Next(g, st, Step.Release(who, b));
    }

    /** The holder of a block writes to it. */
    method Modify(b: nat, op: nat, data: Sector, ghost init: Image)
      requires Valid() && Inv(g, init, st) && IsOpen(ops, op) && b in st.cache && st.cache[b].holder == Some(op)
      modifies this`list, this`st
      ensures Valid() && Inv(g, init, st)
      ensures old(Enabled(g, st, Step.Modify(op, b, data))) && st == Next(g, old(st), Step.Modify(op, b, data))
      ensures st == old(st).(cache := old(st).cache[b := old(st).cache[b].(data := data, dirty := true)])
      ensures FlaggedExcept(old(list), {b}) ==> FlaggedExcept(list, {b})
    {
      hide Inv, Represents;
      NumLogOk(g, init, st);
      CachedInList(list, st.cache, b);
      var i := IndexOf(list, b);
      var e := list[i].(data := data, dirty := true);
      Update(list, st.cache, i, e);
      KeepsInvariant(g, init, st, Step.Modify(op, b, data));
      list := list[i := e];
      st := Next(g, st, Step.Modify(op, b, data));
    }

    /** bzero: acquire, change, sync, release.  If it does not panic, operations
        from then on see zeros in that block and everything else as before. */
    method Bzero(op: nat, b: nat, ghost init: Image) returns (panic: bool)
      requires Valid() && Inv(g, init, st) && IsOpen(ops, op) && IsDataBlock(g, b) && !Held(st, b)
      requires HoldersFlagged(list)
      modifies this
      ensures panic <==> old(SyncPanics(g, st, op, b))
      ensures !panic ==>
        && Valid() && Inv(g, init, st) && HoldersFlagged(list) && !Held(st, b)
        && b < |Current(init, old(st))| && Current(init, st) == Current(init, old(st))[b := ZeroSector()]
    {
      hide Inv, Represents, Current, FlaggedExcept, SyncPanics, Next, Enabled, Legal, Exec;
      ghost var s0 := st;
      OpenIdle(g, init, st, op);
      var data, steps := Acquire(b, op, init);
      Modify(b, op, ZeroSector(), init);
      ModifyEffect(g, init, s0, st, op, b);
      ghost var s2 := st;
      panic := Sync(op, b, init);
      if panic {
        return;
      }
      ZeroedImage(g, init, s2, op, b);
      ghost var s3 := st;
      Release(b, op, init);
      ReleaseEffect(g, s3, b, op);
      SameImages(init, s3, st);
    }

    /** cache_sync with an operation context.  `panic` says that the kernel
        stops; then nothing is promised about the new state. */
    method Sync(op: nat, b: nat, ghost init: Image) returns (panic: bool)
      requires Valid() && Inv(g, init, st) && IsOpen(ops, op) && b in st.cache && st.cache[b].holder == Some(op)
      modifies this
      ensures panic <==> old(SyncPanics(g, st, op, b))
      ensures panic <==>
        || !HasPlace(g, old(header)[0]) || old(outstanding) < 1
        || (b !in Logged(old(header)) && old(ops)[op].rm == 0)
      ensures !panic ==>
        && old(Enabled(g, st, Step.Sync(op, b)))
        && st == Next(g, old(st), Step.Sync(op, b)) && Valid() && Inv(g, init, st)
        && (FlaggedExcept(old(list), {b}) ==> FlaggedExcept(list, {b}))
    {
      hide Represents, AfterSync, Inv, FlaggedExcept, HasPlace;
      BoundedHeader(g, init, st);
      CapacityIsPlaces(g, header[0]);
      if header[0] >= LogCapacity(g) || outstanding < 1 {
        return true;
      }
      var i := FindLogged(b);
      if i == header[0] && ops[op].rm == 0 {
        return true;
      }
      RecordBlock(op, b, i, init);
      return false;
    }

    /** The end of cache_sync: place `i` of the header gets the block if it is new. */
    method RecordBlock(op: nat, b: nat, i: nat, ghost init: Image)
      requires Valid() && Inv(g, init, st) && Enabled(g, st, Step.Sync(op, b)) && NumLogged(header) <= LOG_MAX_SIZE
      requires i <= header[0] && (b in Logged(header) <==> i < header[0]) && (i == header[0] ==> i < LOG_MAX_SIZE)
      modifies this
      ensures st == Next(g, old(st), Step.Sync(op, b)) && Valid() && Inv(g, init, st)
      ensures FlaggedExcept(old(list), {b}) ==> FlaggedExcept(list, {b})
    {
      hide Represents, IndexOf, AfterSync, Record, Inv, Logged;
      CachedInList(list, st.cache, b);
      InList(list, st.cache, b);
      SyncEffect(st, op, b, i);
      var k := IndexOf(list, b);
      var e := list[k].(dirty := false);
      if i == header[0] {
        e := e.(pinned := true);
        header := header[1 + i := b][0 := i + 1];
        ops := ops[op := Open(ops[op].rm - 1)];
        mu := mu - 1;
      }
      Update(list, st.cache, k, e);
      list := list[k := e];
      KeepsInvariant(g, init, st, Step.Sync(op, b));
      st := AfterSync(st, op, b);
    }

    /** The search in cache_sync: the place of `b` in the header, or num_blocks. */
    method FindLogged(b: nat) returns (i: nat)
      requires NumLogged(header) <= LOG_MAX_SIZE
      ensures i <= header[0] && (b in Logged(header) <==> i < header[0])
    {
      i := 0;
      while i < header[0] && header[1 + i] != b
        invariant 0 <= i <= header[0]
        invariant forall j :: 1 <= j < 1 + i ==> header[j] != b
      {
        i := i + 1;
      }
      assert forall j :: 0 <= j < |Logged(header)| ==> Logged(header)[j] == header[1 + j];
    }

    /** cache_begin_op, once round its loop: it goes to sleep exactly during a commit, or
        when the log has no room for ten more blocks behind those promised. */
    method BeginOp(ghost init: Image) returns (sleeps: bool)
      requires Valid() && Inv(g, init, st) && Booted(st.phase)
      modifies this`ops, this`outstanding, this`mu, this`st
      ensures Valid() && Inv(g, init, st)
      ensures sleeps <==> !old(Enabled(g, st, Step.BeginOp))
      ensures sleeps <==> old(committing) || !RoomFor(g, old(header[0] + mu) + 10)
      ensures st == if sleeps then old(st) else Next(g, old(st), Step.BeginOp)
    {
      hide Represents, Core, Recorded, LogCapacity, RoomFor;
      Committing(g, init, st);
      RoomIff(g, header[0] + mu + 10);
      if committing {
        return true;
      }
      if header[0] + mu + OP_MAX_NUM_BLOCKS > LogCapacity(g) {
        return true;
      }
      KeepsInvariant(g, init, st, Step.BeginOp);
      outstanding := outstanding + 1;
      mu := mu + OP_MAX_NUM_BLOCKS;
      ops := ops + [Open(OP_MAX_NUM_BLOCKS)];
      st := Next(g, st, Step.BeginOp);
      return false;
    }

    /** The first half of cache_end_op: whether this is the last open operation.
        Its panic is not reached. */
    method LeaveOp(op: nat, ghost init: Image) returns (doCommit: bool)
      requires Valid() && Inv(g, init, st) && IsOpen(ops, op) && HoldsNothing(st, op)
      modifies this`ops, this`outstanding, this`mu, this`committing, this`st
      ensures Valid() && Inv(g, init, st)
      ensures old(Enabled(g, st, Step.EndOp(op))) && st == Next(g, old(st), Step.EndOp(op))
      ensures doCommit <==> st.outstanding == 0
      ensures doCommit ==> committing && st.phase == if header[0] > 0 then CopyingToLog(0) else WakingUp
    {
      hide Represents, Core, Recorded;
      OpenNotCommitting(g, init, st, op);
      KeepsInvariant(g, init, st, Step.EndOp(op));
      outstanding := outstanding - 1;
      mu := mu - ops[op].rm;
      if committing {
        assert false;
      }
      doCommit := outstanding == 0;
      if doCommit {
        committing := true;
      }
      ops := ops[op := Waiting];
      st := Next(g, st, Step.EndOp(op));
    }

    /** cache_end_op: either the caller sleeps until its group is committed, or it
        commits the group.  Then every operation that waited is durable and woken. */
    method EndOp(op: nat, ghost init: Image) returns (doCommit: bool, ghost steps: seq<Step>)
      requires Valid() && Inv(g, init, st) && IsOpen(ops, op) && HoldsNothing(st, op) && HeaderSector(g) < |disk|
      requires outstanding == 1 ==> HoldersFlagged(list) && LoggedFree(header, st.cache)
      modifies this
      ensures Legal(g, old(st), steps) && st == Exec(g, old(st), steps) && Valid() && Inv(g, init, st)
      ensures doCommit <==> old(outstanding) == 1
      ensures !doCommit ==> steps == [Step.EndOp(op)]
      ensures doCommit ==> st.phase == Idle && !committing && op < |ops| && ops[op] == Woken && op in st.durable
      ensures doCommit ==> forall i :: 0 <= i < |ops| ==> !ops[i].Waiting?
    {
      hide Inv, Represents, Legal, Exec, Stable, Current, Next, Enabled;
      ghost var s0 := st;
      BoundedHeader(g, init, st);
      OneStep(g, st, Step.EndOp(op));
      doCommit := LeaveOp(op, init);
      EndEffect(g, s0, op);
      steps := [Step.EndOp(op)];
      if doCommit {
        ghost var more := Commit(init);
        steps := Extend(g, s0, steps, more);
        ghost var s2 := st;
        OneStep(g, s2, Step.WakeUp);
        WakeEffect(g, init, s2, op);
        committing := false;
        ops := Wake(ops);
        st := Next(g, st, Step.WakeUp);
        steps := Extend(g, s0, steps, [Step.WakeUp]);
      }
    }

    /** The fields that commit and recovery leave alone. */
    twostate predicate SameHistoryFields()
      reads this
    {
      && st.issued == old(st.issued) && st.mark == old(st.mark) && st.durable == old(st.durable)
    }

    /** write_log. */
    method WriteLog(ghost init: Image) returns (ghost steps: seq<Step>)
      requires Valid() && Inv(g, init, st) && HoldersFlagged(list) && LoggedFree(header, st.cache)
      requires st.phase == CopyingToLog(0)
      requires NumLogged(header) <= LOG_MAX_SIZE
      modifies this`disk, this`list, this`st
      ensures Legal(g, old(st), steps) && st == Exec(g, old(st), steps)
      ensures Valid() && Inv(g, init, st) && HoldersFlagged(list) && LoggedFree(header, st.cache)
      ensures st.phase == WritingHeader
      ensures SameHistoryFields() && |disk| == old(|disk|)
    {
      hide Inv, Represents, Legal, Exec, SourceData, CopyRound, Acquired, Released, LoggedFree, SameHolders, FlaggedExcept;
      var tail := 0;
      steps := [];
      EmptyRun(g, st);
      StartOfLoop(g, init, st);
      while tail < header[0]
        invariant 0 <= tail <= header[0]
        invariant Valid() && Inv(g, init, st) && HoldersFlagged(list) && LoggedFree(header, st.cache)
        invariant SameHistoryFields()
        invariant |disk| == old(|disk|)
        invariant st.phase == CopyPhase(header[0], tail)
        invariant Legal(g, old(st), steps) && st == Exec(g, old(st), steps)
      {
        var from, to := header[1 + tail], LogBlock(g, tail);
        EntryFree(header, st.cache, tail);
        ghost var more, t := CopyStep(g, init, st, list, from, to);
        CopyThrough(from, to, SourceData(list, disk, from, to));
        steps := Extend(g, old(st), steps, more);
        StillFree(header, st.cache, t.cache);
        st := t;
        tail := tail + 1;
      }
    }

    /** install_trans.  In recovery the cache is empty at first. */
    method InstallTrans(recovering: bool, ghost init: Image) returns (ghost steps: seq<Step>)
      requires Valid() && Inv(g, init, st) && HoldersFlagged(list) && LoggedFree(header, st.cache)
      requires NumLogged(header) <= LOG_MAX_SIZE
      requires st.phase == if recovering then BootPhase(header[0], 0) else InstallPhase(header[0], 0)
      requires recovering ==> st.cache == map[]
      modifies this`disk, this`list, this`st
      ensures Legal(g, old(st), steps) && st == Exec(g, old(st), steps)
      ensures Valid() && Inv(g, init, st) && HoldersFlagged(list) && SameHistoryFields()
      ensures st.phase == if recovering then BootErasingHeader else ErasingHeader
      ensures |disk| == old(|disk|)
    {
      hide Inv, Represents, Legal, Exec, SourceData, CopyRound, Acquired, Released, LoggedFree, SameHolders, FlaggedExcept;
      var tail := 0;
      steps := [];
      EmptyRun(g, st);
      while tail < header[0]
        invariant 0 <= tail <= header[0]
        invariant Valid() && Inv(g, init, st) && HoldersFlagged(list) && LoggedFree(header, st.cache)
        invariant SameHistoryFields()
        invariant |disk| == old(|disk|)
        invariant st.phase == if recovering then BootPhase(header[0], tail) else InstallPhase(header[0], tail)
        invariant recovering ==> OnlyEarlier(g, header, tail, st.cache)
        invariant Legal(g, old(st), steps) && st == Exec(g, old(st), steps)
      {
        var from, to := LogBlock(g, tail), header[1 + tail];
        ghost var more, t;
        if recovering {
          more, t := BootStep(g, init, st, list, from, to);
        } else {
          EntryFree(header, st.cache, tail);
          more, t := InstallStep(g, init, st, list, from, to);
        }
        CopyThrough(from, to, SourceData(list, disk, from, to));
        if recovering {
          var i := IndexOf(list, to);
          if i < |list| {
            list := list[i := list[i].(pinned := false)];
          }
        }
        steps := Extend(g, old(st), steps, more);
        StillFree(header, st.cache, t.cache);
        st := t;
        tail := tail + 1;
      }
    }

    /** write_header at the commit point. */
    method PutHeader(ghost init: Image)
      requires Valid() && Inv(g, init, st) && st.phase.WritingHeader? && HeaderSector(g) < |disk|
      modifies this`disk, this`st
      ensures old(Enabled(g, st, Step.WriteHeader)) && st == Next(g, old(st), Step.WriteHeader)
      ensures Valid() && Inv(g, init, st) && st.phase == InstallPhase(header[0], 0)
      ensures |disk| == old(|disk|) && st.cache == old(st).cache
    {
      hide Inv, Represents;
      KeepsInvariant(g, init, st, Step.WriteHeader);
      disk := disk[HeaderSector(g) := header];
      st := Next(g, st, Step.WriteHeader);
    }

    /** Set num_blocks to zero and write the header. */
    method EraseLog(ghost init: Image)
      requires Valid() && Inv(g, init, st) && HeaderSector(g) < |disk|
      requires st.phase.ErasingHeader? || st.phase.BootErasingHeader?
      modifies this`disk, this`header, this`st
      ensures old(Enabled(g, st, Step.EraseHeader)) && st == Next(g, old(st), Step.EraseHeader)
      ensures Valid() && Inv(g, init, st) && SameHistoryFields()
      ensures st.phase == if old(st.phase).ErasingHeader? then WakingUp else Idle
      ensures |disk| == old(|disk|)
    {
      hide Inv, Represents;
      KeepsInvariant(g, init, st, Step.EraseHeader);
      header := header[0 := 0];
      disk := disk[HeaderSector(g) := header];
      st := Next(g, st, Step.EraseHeader);
    }

    /** commit: a run of the log machine from the end of the last operation of a
        group to the wake-up, after which the current image is the durable one
        and is at home on the disk. */
    method Commit(ghost init: Image) returns (ghost steps: seq<Step>)
      requires Valid() && Inv(g, init, st) && HoldersFlagged(list) && LoggedFree(header, st.cache)
      requires NumLogged(header) <= LOG_MAX_SIZE
      requires st.phase == if header[0] > 0 then CopyingToLog(0) else WakingUp
      requires HeaderSector(g) < |disk|
      modifies this`disk, this`list, this`header, this`st
      ensures Legal(g, old(st), steps) && st == Exec(g, old(st), steps)
      ensures Valid() && Inv(g, init, st) && HoldersFlagged(list) && st.phase == WakingUp
      ensures Stable(init, st) == Current(init, old(st))
      ensures forall b: nat :: IsDataBlock(g, b) ==>
        disk[BlockSector(b)] == Current(init, old(st))[b]
    {
      hide Inv, Represents, Legal, Exec, Stable, Current, Next;
      steps := [];
      ghost var s0 := st;
      EmptyRun(g, s0);
      if header[0] > 0 {
        steps := WriteLog(init);
        SameImages(init, s0, st);
        CommitPointImages(g, init, st);
        OneStep(g, st, Step.WriteHeader);
        PutHeader(init);
        steps := Extend(g, s0, steps, [Step.WriteHeader]);
        ghost var s2 := st;
        ghost var more := InstallTrans(false, init);
        SameImages(init, s2, st);
        steps := Extend(g, s0, steps, more);
        ghost var s3 := st;
        OneStep(g, s3, Step.EraseHeader);
        EraseLog(init);
        SameImages(init, s3, st);
        steps := Extend(g, s0, steps, [Step.EraseHeader]);
      }
      AtHome(g, init, st);
    }

    /** recover_from_log, at power-on: the mount succeeds and then every data block
        is at home. */
    method RecoverFromLog(ghost init: Image) returns (ghost steps: seq<Step>)
      requires Valid() && Inv(g, init, st) && st.phase.BootReadHeader? && list == []
      requires HeaderSector(g) < |disk|
      modifies this
      ensures Legal(g, old(st), steps) && st == Exec(g, old(st), steps)
      ensures Valid() && Inv(g, init, st) && HoldersFlagged(list) && st.phase == Idle
      ensures Stable(init, st) == Stable(init, old(st))
      ensures NumLogged(header) == 0 && |disk| == old(|disk|)
      ensures forall b: nat :: IsDataBlock(g, b) ==>
        && b < |Stable(init, old(st))| && BlockSector(b) < |disk|
        && disk[BlockSector(b)] == Stable(init, old(st))[b]
    {
      hide Inv, Represents, Legal, Exec, Stable, Current, Next;
      ghost var s0 := st;
      EmptyCache(list, st.cache);
      BootHeader(g, init, s0);
      KeepsInvariant(g, init, s0, Step.ReadHeader);
      OneStep(g, s0, Step.ReadHeader);
      header := disk[HeaderSector(g)];
      st := Next(g, s0, Step.ReadHeader);
      steps := [Step.ReadHeader];
      SameImages(init, s0, st);
      ghost var s1 := st;
      ghost var more := InstallTrans(true, init);
      SameImages(init, s1, st);
      steps := Extend(g, s0, steps, more);
      ghost var s2 := st;
      OneStep(g, s2, Step.EraseHeader);
      BootAtHome(g, init, s2);
      EraseLog(init);
      SameImages(init, s2, st);
      steps := Extend(g, s0, steps, [Step.EraseHeader]);
    }

    /** Acquire both blocks, copy, write the target to its sector, release both:
        the body of the loops of write_log and install_trans. */
    method CopyThrough(from: nat, to: nat, ghost data: Sector)
      requires BlockSector(from) < |disk| && BlockSector(to) < |disk|
      requires data == SourceData(list, disk, from, to)
      modifies this`disk, this`list
      ensures disk == old(disk)[BlockSector(to) := data]
      ensures list == CopyRound(old(list), old(disk), from, to, data)
    {
      TakeBlock(from, ME);
      TakeBlock(to, ME);
      var i := IndexOf(list, from);
      var d: Sector := if i < |list| then list[i].data else disk[BlockSector(from)];
      var j := IndexOf(list, to);
      if j < |list| {
        list := list[j := list[j].(data := d)];
      }
      disk := disk[BlockSector(to) := d];
      GiveBack(from);
      GiveBack(to);
    }
  }

  /** One round of the eviction loop. */
  lemma EvictOne(l: List, q: nat, k: int)
    requires q < |l| && k > 0
    ensures var r := l[..q] + l[q + 1..];
      Evictable(l[q]) ==>
        && r[..q] == l[..q] && r[q..] == l[q + 1..]
        && EvictTail(l[..q + 1], k) + l[q + 1..] == EvictTail(r[..q], k - 1) + r[q..]
    ensures !Evictable(l[q]) ==>
      EvictTail(l[..q + 1], k) + l[q + 1..] == EvictTail(l[..q], k) + l[q..]
  {
    assert l[..q + 1][..q] == l[..q];
    if !Evictable(l[q]) {
      Assoc(EvictTail(l[..q], k), l[q], l[q + 1..]);
      assert [l[q]] + l[q + 1..] == l[q..];
    }
  }

  lemma EmptyRun(g: Geometry, s: State)
    requires 1 <= g.numLog
    ensures Legal(g, s, []) && Exec(g, s, []) == s
  {
  }

  lemma Extend(g: Geometry, s: State, a: seq<Step>, b: seq<Step>) returns (steps: seq<Step>)
    requires 1 <= g.numLog && Legal(g, s, a) && Legal(g, Exec(g, s, a), b)
    ensures Legal(g, s, steps) && Exec(g, s, steps) == Exec(g, Exec(g, s, a), b)
  {
    steps := a + b;
    ExecAppend(g, s, a, b);
  }

  lemma OneStep(g: Geometry, s: State, step: Step)
    requires 1 <= g.numLog && Enabled(g, s, step)
    ensures Legal(g, s, [step]) && Exec(g, s, [step]) == Next(g, s, step)
  {
    assert [step][1..] == [];
  }

  lemma EmptyCache(list: List, m: map<nat, Entry>)
    requires Represents(list, m) && list == []
    ensures m == map[]
  {
  }

  lemma BootHeader(g: Geometry, init: Image, s: State)
    requires Inv(g, init, s) && s.phase.BootReadHeader? && HeaderSector(g) < |s.disk|
    ensures 1 <= g.numLog && Enabled(g, s, ReadHeader)
    ensures var h := s.disk[HeaderSector(g)];
      && NumLogged(h) <= LOG_MAX_SIZE
      && Next(g, s, ReadHeader) == s.(header := h, phase := BootPhase(NumLogged(h), 0))
  {
    hide Replay, Survivors;
  }

  lemma BootAtHome(g: Geometry, init: Image, s: State)
    requires Inv(g, init, s) && s.phase.BootErasingHeader?
    ensures 1 <= g.numLog && Enabled(g, s, EraseHeader)
    ensures var t := Next(g, s, EraseHeader);
      && NumLogged(t.header) == 0
      && (forall b: nat :: IsDataBlock(g, b) ==>
            && b < |Stable(init, s)| && BlockSector(b) < |t.disk|
            && t.disk[BlockSector(b)] == Stable(init, s)[b])
  {
    hide Replay, Survivors;
    BootEnds(g, init, s);
  }

  lemma StartOfLoop(g: Geometry, init: Image, s: State)
    requires Inv(g, init, s) && s.phase == CopyingToLog(0)
    ensures s.phase == CopyPhase(NumLogged(s.header), 0)
  {
  }

  lemma SameImages(init: Image, s: State, t: State)
    requires s.issued == t.issued && s.durable == t.durable && s.mark == t.mark
    ensures Stable(init, s) == Stable(init, t) && Current(init, s) == Current(init, t)
  {
  }

  lemma CommitPointImages(g: Geometry, init: Image, s: State)
    requires Inv(g, init, s) && s.phase.WritingHeader? && HeaderSector(g) < |s.disk|
    ensures 1 <= g.numLog && Stable(init, Next(g, s, WriteHeader)) == Current(init, s)
  {
    hide Replay, Survivors;
    RecordedWriteHeader(g, init, s);
  }

  /** When the log is empty, every data block is at home. */
  lemma AtHome(g: Geometry, init: Image, s: State)
    requires Inv(g, init, s) && s.phase.WakingUp?
    ensures Stable(init, s) == Current(init, s)
    ensures forall b: nat :: IsDataBlock(g, b) ==>
      b < |Stable(init, s)| && BlockSector(b) < |s.disk| && s.disk[BlockSector(b)] == Stable(init, s)[b]
  {
    hide Replay, Survivors;
  }

  // ------------------------------------------------- operations and groups

  lemma SyncEffect(s: State, op: nat, b: nat, i: nat)
    requires IsOpen(s.ops, op) && b in s.cache && (b in Logged(s.header) || s.ops[op].rm > 0)
    requires NumLogged(s.header) <= LOG_MAX_SIZE && i <= s.header[0] && (b in Logged(s.header) <==> i < s.header[0])
    requires i == s.header[0] ==> i < LOG_MAX_SIZE
    ensures var e := s.cache[b]; var t := AfterSync(s, op, b);
      && t.disk == s.disk && t.outstanding == s.outstanding && t.committing == s.committing
      && (i < s.header[0] ==>
            t.cache == s.cache[b := e.(dirty := false)] && t.header == s.header && t.ops == s.ops && t.mu == s.mu)
      && (i == s.header[0] ==>
            && t.cache == s.cache[b := e.(dirty := false, pinned := true)]
            && t.header == s.header[1 + i := b][0 := i + 1]
            && t.ops == s.ops[op := Open(s.ops[op].rm - 1)] && t.mu == s.mu - 1)
  {
  }

  lemma InList(list: List, m: map<nat, Entry>, b: nat)
    requires Represents(list, m) && Cached(list, b)
    ensures b in m && IndexOf(list, b) < |list| && list[IndexOf(list, b)].no == b
    ensures m[b] == EntryOf(list[IndexOf(list, b)])
  {
    hide IndexOf;
    var j :| 0 <= j < |list| && list[j].no == b;
    assert IndexOf(list, b) <= j;
  }

  lemma Committing(g: Geometry, init: Image, s: State)
    requires Inv(g, init, s) && Booted(s.phase)
    ensures s.committing <==> !s.phase.Idle?
    ensures 0 <= s.mu
  {
  }

  lemma OpenNotCommitting(g: Geometry, init: Image, s: State, op: nat)
    requires Inv(g, init, s) && IsOpen(s.ops, op)
    ensures !s.committing
  {
  }

  lemma BoundedHeader(g: Geometry, init: Image, s: State)
    requires Inv(g, init, s)
    ensures 1 <= g.numLog && NumLogged(s.header) <= LOG_MAX_SIZE
  {
  }

  lemma EndEffect(g: Geometry, s: State, op: nat)
    requires 1 <= g.numLog && Enabled(g, s, Step.EndOp(op))
    ensures var t := Next(g, s, Step.EndOp(op));
      && t.header == s.header && t.disk == s.disk && t.cache == s.cache && t.outstanding == s.outstanding - 1
      && op < |t.ops| && t.ops[op] == Waiting
  {
  }

  lemma WakeEffect(g: Geometry, init: Image, s: State, op: nat)
    requires Inv(g, init, s) && s.phase.WakingUp? && op < |s.ops| && s.ops[op] == Waiting
    ensures 1 <= g.numLog && Enabled(g, s, Step.WakeUp)
    ensures var t := Next(g, s, Step.WakeUp);
      && Inv(g, init, t) && t == s.(committing := false, phase := Idle, ops := Wake(s.ops))
      && t.ops[op] == Woken && op in t.durable && (forall i :: 0 <= i < |t.ops| ==> !t.ops[i].Waiting?)
  {
    KeepsInvariant(g, init, s, Step.WakeUp);
  }

  // ------------------------------------------------- acquire and release

  /** The entries of the other blocks are as before. */
  ghost predicate SameOthers(c: map<nat, Entry>, c': map<nat, Entry>, b: nat) {
    forall x :: x in c' && x != b ==> x in c && c'[x] == c[x]
  }

  lemma SectorOk(g: Geometry, init: Image, s: State, b: nat)
    requires Inv(g, init, s) && IsDataBlock(g, b)
    ensures BlockSector(b) < |s.disk|
  {
  }

  lemma FrontBlock(list: List, disk: Disk, b: nat, who: nat)
    requires BlockSector(b) < |disk|
    ensures var r := Acquired(list, disk, b, who); r != [] && r[0].no == b
  {
    hide IndexOf;
  }

  lemma FrontEntry(list: List, m: map<nat, Entry>, b: nat)
    requires Represents(list, m) && list != [] && list[0].no == b
    ensures b in m && m[b] == EntryOf(list[0]) && Cached(list, b)
  {
  }

  lemma CachedInList(list: List, m: map<nat, Entry>, b: nat)
    requires Represents(list, m) && b in m
    ensures Cached(list, b) && IndexOf(list, b) < |list| && list[IndexOf(list, b)].no == b
    ensures m[b] == EntryOf(list[IndexOf(list, b)])
  {
    hide IndexOf;
    Found(list, b);
  }

  lemma DistinctList(list: List, m: map<nat, Entry>)
    requires Represents(list, m)
    ensures Distinct(list)
  {
  }

  predicate EvictsOrAcquires(steps: seq<Step>) {
    forall i :: 0 <= i < |steps| ==> steps[i].Evict? || steps[i].Acquire?
  }

  lemma {:induction false} HeldIsNotEvicted(g: Geometry, s: State, steps: seq<Step>, b: nat)
    requires 1 <= g.numLog && Legal(g, s, steps) && EvictsOrAcquires(steps) && Held(s, b)
    ensures Held(Exec(g, s, steps), b)
    decreases |steps|
  {
    if steps != [] {
      HeldIsNotEvicted(g, Next(g, s, steps[0]), steps[1..], b);
    }
  }

  /** No run of Evict and Acquire steps leads to a list that lost a held block. */
  lemma NoRunLosesHeld(g: Geometry, s: State, steps: seq<Step>, list: List, list': List)
    requires 1 <= g.numLog && Legal(g, s, steps) && EvictsOrAcquires(steps)
    requires Represents(list, s.cache) && !HeldStay(list, list')
    ensures !Represents(list', Exec(g, s, steps).cache)
  {
    var i :| 0 <= i < |list| && list[i].holder.Some? && !Cached(list', list[i].no);
    assert list[i].no in s.cache;
    HeldIsNotEvicted(g, s, steps, list[i].no);
  }

  lemma Unrepresented(g: Geometry, s: State, list: List, list': List)
    requires 1 <= g.numLog && Represents(list, s.cache) && !HeldStay(list, list')
    ensures !Represents(list', s.cache)
  {
    NoRunLosesHeld(g, s, [], list, list');
  }

  lemma EvictsThenAcquire(g: Geometry, s: State, steps: seq<Step>, t: State, b: nat)
    requires 1 <= g.numLog && Legal(g, s, steps) && t == Exec(g, s, steps)
    requires steps != [] && steps[|steps| - 1].Acquire? && steps[|steps| - 1].b == b
    requires forall i :: 0 <= i < |steps| - 1 ==> steps[i].Evict?
    ensures SameOthers(s.cache, t.cache, b)
    decreases |steps|
  {
    if |steps| > 1 {
      EvictsThenAcquire(g, Next(g, s, steps[0]), steps[1..], t, b);
    } else {
      assert steps[1..] == [];
    }
  }

  lemma ReleaseEffect(g: Geometry, s: State, b: nat, who: nat)
    requires 1 <= g.numLog && b in s.cache && s.cache[b].holder == Some(who) && !s.cache[b].dirty
    ensures Enabled(g, s, Step.Release(who, b))
    ensures Next(g, s, Step.Release(who, b)) == s.(cache := s.cache[b := s.cache[b].(holder := None)])
  {
  }

  lemma OpenIdle(g: Geometry, init: Image, s: State, op: nat)
    requires Inv(g, init, s) && IsOpen(s.ops, op)
    ensures 1 <= g.numLog && Booted(s.phase)
  {
  }

  lemma ModifyEffect(g: Geometry, init: Image, s: State, t: State, op: nat, b: nat)
    requires 1 <= g.numLog && IsOpen(s.ops, op) && b in t.cache && t == s.(cache := t.cache)
    ensures IsOpen(t.ops, op) && Current(init, t) == Current(init, s)
    ensures SyncPanics(g, t, op, b) <==> SyncPanics(g, s, op, b)
  {
  }

  lemma ZeroedImage(g: Geometry, init: Image, s: State, op: nat, b: nat)
    requires Inv(g, init, s) && IsDataBlock(g, b) && 1 <= g.numLog && Enabled(g, s, Step.Sync(op, b))
    requires s.cache[b].data == ZeroSector() && s.cache[b].holder == Some(op)
    ensures var t := Next(g, s, Step.Sync(op, b));
      && b < |Current(init, s)| && Current(init, t) == Current(init, s)[b := ZeroSector()]
      && b in t.cache && t.cache[b].holder == Some(op) && !t.cache[b].dirty
  {
    hide Replay, Survivors, Accounting, Recoverable, Progress, CacheAgrees, PinnedWhileLogged;
    SyncImages(init, s, Next(g, s, Step.Sync(op, b)), Write(op, b, s.cache[b].data));
  }
}
