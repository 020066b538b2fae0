/**
  A run in which an operation that stays within its ten blocks makes cache_sync
  panic: it syncs one of its own blocks again while the log is full.
 */
module LogExamples {
  import opened LogMachine
  import opened LogInvariant
  import opened LogTheorems

  const GEOMETRY := Geometry(40, 2, 11)

  function BlankDisk(): Disk {
    seq(PARTITION_START + 40, _ => ZeroSector())
  }

  /** Boot, begin one operation, and let it acquire and sync blocks 20, 21, ... */
  function FillSteps(k: nat): seq<Step> {
    if k == 0 then [ReadHeader, EraseHeader, BeginOp]
    else FillSteps(k - 1) + [Acquire(0, 19 + k), Sync(0, 19 + k)]
  }

  ghost predicate Filled(s: State, k: nat)
    requires k <= 10
  {
    && |s.disk| == PARTITION_START + 40
    && s.phase.Idle? && s.ops == [Open(10 - k)] && s.outstanding == 1
    && NumLogged(s.header) == k
    && (forall i :: 1 <= i <= k ==> s.header[i] == 19 + i)
    && (forall b :: b in s.cache ==> 20 <= b < 20 + k)
    && (forall b :: 20 <= b < 20 + k ==> b in s.cache && s.cache[b].holder == Some(0))
  }

  lemma {:induction false} Fill(k: nat)
    requires k <= 10
    ensures Legal(GEOMETRY, PowerOn(BlankDisk()), FillSteps(k))
    ensures Filled(Exec(GEOMETRY, PowerOn(BlankDisk()), FillSteps(k)), k)
  {
    var start := PowerOn(BlankDisk());
    if k == 0 {
      var s1 := Next(GEOMETRY, start, ReadHeader);
      assert s1.header == ZeroSector();
      var s2 := Next(GEOMETRY, s1, EraseHeader);
      var s3 := Next(GEOMETRY, s2, BeginOp);
      assert FillSteps(0)[1..] == [EraseHeader, BeginOp];
      assert [EraseHeader, BeginOp][1..] == [BeginOp];
      assert [BeginOp][1..] == [];
    } else {
      Fill(k - 1);
      var s := Exec(GEOMETRY, start, FillSteps(k - 1));
      var b := 19 + k;
      var more := [Acquire(0, b), Sync(0, b)];
      FillOne(s, k);
      assert more[1..] == [Sync(0, b)];
      assert [Sync(0, b)][1..] == [];
      var t := Next(GEOMETRY, s, Acquire(0, b));
      assert Exec(GEOMETRY, s, more) == Exec(GEOMETRY, t, [Sync(0, b)]) == Next(GEOMETRY, t, Sync(0, b));
      ExecAppend(GEOMETRY, start, FillSteps(k - 1), more);
    }
  }

  lemma FillOne(s: State, k: nat)
    requires 1 <= k <= 10 && Filled(s, k - 1)
    ensures Enabled(GEOMETRY, s, Acquire(0, 19 + k))
    ensures var t := Next(GEOMETRY, s, Acquire(0, 19 + k));
      Enabled(GEOMETRY, t, Sync(0, 19 + k)) && Filled(Next(GEOMETRY, t, Sync(0, 19 + k)), k)
  {
    assert 19 + k !in Logged(s.header);
  }

  lemma BlankHeader()
    ensures |BlankDisk()| == PARTITION_START + 40
    ensures BlankDisk()[HeaderSector(GEOMETRY)] == ZeroSector()
  {
  }

  lemma AbsorbedSyncPanics() returns (s: State)
    ensures Reaches(GEOMETRY, BlankDisk(), FillSteps(10), s)
    ensures s.ops == [Open(0)]
    ensures |Logged(s.header)| == OP_MAX_NUM_BLOCKS
    ensures 20 in Logged(s.header) && 20 in s.cache && s.cache[20].holder == Some(0)
    ensures SyncPanics(GEOMETRY, s, 0, 20)
  {
    hide FillSteps, Legal, Exec, BlankDisk;
    Fill(10);
    BlankHeader();
    s := Exec(GEOMETRY, PowerOn(BlankDisk()), FillSteps(10));
    assert Logged(s.header)[0] == 20;
  }
}
