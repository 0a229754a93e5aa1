/**
  The disk report's two caches, in memory and on disk, and how stale a served report can be.

  The report runs in a pool of threads, so a call is cut wherever it reads or writes what calls share:
  between two of its steps any step of another call, or a write of another worker, may run.  Every step
  happens at a reading of one clock that never goes back.
 */
module ReportCache {
  import opened Options
  import opened Storage

  const TTL := 1800.0

  /** A report body; the empty one stands for a file that is missing, unreadable or an empty object. */
  type Payload = string

  /**
    Where a report comes from: when it was written to disk, and the reading that let it in, which is that of
    the disk check, or of the write itself for a report computed by the call.
   */
  datatype Origin = Origin(written: real, letIn: real, fromDisk: bool) {
    /** A file is let in within its lifetime, a computed report as it is written. */
    predicate Sound() { if fromDisk then letIn - written < TTL else letIn == written }

    /** The lifetimes a report of this origin can run through: one in memory, one before that on disk. */
    function Lifetimes(): real { if fromDisk then 2.0 * TTL else TTL }
  }

  /** The report in memory with its timestamp; its origin and the time it was put there are bookkeeping. */
  datatype MemEntry = MemEntry(payload: Payload, ts: real, origin: Origin, placed: real) {
    predicate Sound(now: real) { origin.Sound() && origin.letIn <= ts <= placed <= now }

    /** The age below which the entry is served to a call that looks once. */
    function MaxAge(): real { origin.Lifetimes() + (placed - origin.letIn) }
  }

  datatype DiskFile = DiskFile(payload: Payload, mtime: real)

  datatype Tier = Memory | Disk | Fresh

  datatype Served = Served(payload: Payload, tier: Tier)

  /** Where a call stands; the readings are those of the steps before. */
  datatype Phase =
    | Copying(checked: real)                    // memory passed the check and is looked up again
    | AtDisk                                    // memory missed
    | Reading(checked: real)                    // the file passed the check and is read
    | Computing                                 // both missed
    | Stamping(report: Served, origin: Origin)  // a report for memory
    | Placing(report: Served, ts: real, origin: Origin)

  predicate MemHit(mem: Option<MemEntry>, now: real) { mem.Some? && now - mem.value.ts < TTL }

  predicate DiskHit(disk: Option<DiskFile>, now: real) { disk.Some? && now - disk.value.mtime < TTL }

  /** Half an hour, counted from the memory timestamp or the file's. */
  lemma HitsMean(mem: Option<MemEntry>, disk: Option<DiskFile>, now: real)
    ensures MemHit(mem, now) <==> mem.Some? && now < mem.value.ts + 1800.0
    ensures DiskHit(disk, now) <==> disk.Some? && now < disk.value.mtime + 1800.0
  {
  }

  /** What a phase may rely on whatever has run since it began. */
  predicate PhaseSound(p: Phase, mem: Option<MemEntry>, disk: Option<DiskFile>, now: real) {
    match p
    case Copying(checked) =>
      && checked <= now && mem.Some?
      && (MemHit(mem, checked) || mem.value.placed >= checked)
    case Reading(checked) => checked <= now && (disk.Some? ==> checked - disk.value.mtime < TTL)
    case Stamping(_, origin) => origin.Sound() && origin.letIn <= now
    case Placing(_, ts, origin) => origin.Sound() && origin.letIn <= ts <= now
    case _ => true
  }

  class Cache {
    var mem: Option<MemEntry>
    var disk: Option<DiskFile>
    var calls: map<nat, Phase>
    ghost var now: real  // the latest clock reading

    ghost predicate Valid()
      reads this
    {
      && (mem.Some? ==> mem.value.Sound(now))
      && (disk.Some? ==> disk.value.mtime <= now)
      && forall c :: c in calls ==> PhaseSound(calls[c], mem, disk, now)
    }

    constructor (disk: Option<DiskFile>, ghost now: real)
      requires disk.Some? ==> disk.value.mtime <= now
      ensures Valid() && mem == None && this.disk == disk && calls == map[] && this.now == now
    {
      this.mem, this.disk, this.calls, this.now := None, disk, map[], now;
    }

    /** A call begins and checks the report in memory. */
    method CheckMemory(c: nat, at: real)
      requires Valid() && c !in calls && now <= at
      modifies this
      ensures Valid() && now == at && mem == old(mem) && disk == old(disk)
      ensures calls == old(calls)[c := if MemHit(mem, at) then Copying(at) else AtDisk]
    {
      now := at;
      calls := calls[c := if mem.Some? && at - mem.value.ts < TTL then Copying(at) else AtDisk];
    }

    /**
      The report in memory is copied and served.  Another call may have replaced it since the check; either
      way it is younger than its lifetimes, the time it waited to be placed, and the time since the check.
     */
    method CopyMemory(c: nat, at: real) returns (s: Served, ghost written: real)
      requires Valid() && c in calls && calls[c].Copying? && now <= at
      modifies this
      ensures Valid() && now == at && mem == old(mem) && disk == old(disk) && calls == old(calls) - {c}
      ensures mem.Some? && s == Served(mem.value.payload, Memory) && written == mem.value.origin.written
      ensures at - written < mem.value.MaxAge() + (at - old(calls)[c].checked)
    {
      now := at;
      s, written := Served(mem.value.payload, Memory), mem.value.origin.written;
      calls := calls - {c};
    }

    /** The file's age is checked. */
    method CheckDisk(c: nat, at: real)
      requires Valid() && c in calls && calls[c].AtDisk? && now <= at
      modifies this
      ensures Valid() && now == at && mem == old(mem) && disk == old(disk)
      ensures calls == old(calls)[c := if DiskHit(disk, at) then Reading(at) else Computing]
    {
      now := at;
      calls := calls[c := if disk.Some? && at - disk.value.mtime < TTL then Reading(at) else Computing];
    }

    /** The file is read, by now perhaps another one; an empty or unreadable one is as good as none. */
    method ReadDisk(c: nat, at: real)
      requires Valid() && c in calls && calls[c].Reading? && now <= at
      modifies this
      ensures Valid() && now == at && mem == old(mem) && disk == old(disk)
      ensures calls == old(calls)[c := if disk.Some? && disk.value.payload != "" then
                                         Stamping(Served(disk.value.payload, Disk),
                                                  Origin(disk.value.mtime, old(calls)[c].checked, true))
                                       else Computing]
    {
      now := at;
      var checked := calls[c].checked;
      if disk.Some? && disk.value.payload != "" {
        calls := calls[c := Stamping(Served(disk.value.payload, Disk), Origin(disk.value.mtime, checked, true))];
      } else {
        calls := calls[c := Computing];
      }
    }

    /** The recomputed report is written; if that fails it is served without being kept in memory. */
    method WriteDisk(c: nat, computed: Payload, at: real, w: WriteResult) returns (s: Option<Served>)
      requires Valid() && c in calls && calls[c].Computing? && now <= at
      modifies this
      ensures Valid() && now == at && mem == old(mem) && disk == FileAfter(old(disk), computed, at, w)
      ensures s == if w.Written? then None else Some(Served(computed, Fresh))
      ensures calls == if w.Written? then old(calls)[c := Stamping(Served(computed, Fresh), Origin(at, at, false))]
                       else old(calls) - {c}
    {
      now := at;
      match w {
        case Written =>
          disk := Some(DiskFile(computed, at));
          calls := calls[c := Stamping(Served(computed, Fresh), Origin(at, at, false))];
          s := None;
        case Failed(truncated) =>
          if truncated {
            disk := Some(DiskFile("", at));
          }
          calls := calls - {c};
          s := Some(Served(computed, Fresh));
      }
    }

    /** The clock is read for the memory timestamp. */
    method Stamp(c: nat, at: real)
      requires Valid() && c in calls && calls[c].Stamping? && now <= at
      modifies this
      ensures Valid() && now == at && mem == old(mem) && disk == old(disk)
      ensures calls == old(calls)[c := Placing(old(calls)[c].report, at, old(calls)[c].origin)]
    {
      now := at;
      calls := calls[c := Placing(calls[c].report, at, calls[c].origin)];
    }

    /** The stamped report replaces the one in memory, even a newer one, and is served. */
    method Place(c: nat, at: real) returns (s: Served, ghost written: real)
      requires Valid() && c in calls && calls[c].Placing? && now <= at
      modifies this
      ensures Valid() && now == at && disk == old(disk) && calls == old(calls) - {c}
      ensures s == old(calls)[c].report && written == old(calls)[c].origin.written
      ensures mem == Some(MemEntry(s.payload, old(calls)[c].ts, old(calls)[c].origin, at))
      ensures at - written < TTL + (at - old(calls)[c].origin.letIn)
    {
      now := at;
      var Placing(report, ts, origin) := calls[c];
      assert PhaseSound(calls[c], mem, disk, at);
      s, written := report, origin.written;
      mem := Some(MemEntry(report.payload, ts, origin, at));
      calls := calls - {c};
    }

    /** Another worker replaces the shared file. */
    method OtherWorkerWrites(payload: Payload, at: real)
      requires Valid() && now <= at
      modifies this
      ensures Valid() && mem == old(mem) && disk == Some(DiskFile(payload, at))
      ensures now == at && calls == old(calls)
    {
      disk := Some(DiskFile(payload, at));
      now := at;
    }

    /** `_disk_rescue_report` when nothing else runs during the call. */
    method Report(c: nat, clock: Clock, computed: Payload, w: WriteResult) returns (s: Served)
      requires Valid() && c !in calls && clock.Ordered() && now <= clock.memCheck
      modifies this
      ensures Valid() && now <= clock.placed && calls == old(calls)
      ensures Turn(s, mem, disk) == Respond(old(mem), old(disk), clock, computed, w)
    {
      CheckMemory(c, clock.memCheck);
      if calls[c].Copying? {
        ghost var written;
        s, written := CopyMemory(c, clock.copied);
      } else {
        s := Refill(c, clock, computed, w);
      }
    }

    /** The rest of such a call once memory has missed. */
    method Refill(c: nat, clock: Clock, computed: Payload, w: WriteResult) returns (s: Served)
      requires Valid() && c in calls && calls[c].AtDisk? && clock.Ordered() && now <= clock.diskCheck
      requires !MemHit(mem, clock.memCheck)
      modifies this
      ensures Valid() && now <= clock.placed && calls == old(calls) - {c}
      ensures Turn(s, mem, disk) == Respond(old(mem), old(disk), clock, computed, w)
    {
      CheckDisk(c, clock.diskCheck);
      if calls[c].Reading? {
        ReadDisk(c, clock.read);
      }
      if calls[c].Computing? {
        var failed := WriteDisk(c, computed, clock.write, w);
        if failed.Some? {
          return failed.value;
        }
      }
      s := Keep(c, clock.stamp, clock.placed);
    }

    method Keep(c: nat, stamp: real, placed: real) returns (s: Served)
      requires Valid() && c in calls && calls[c].Stamping? && now <= stamp <= placed
      modifies this
      ensures Valid() && now == placed && disk == old(disk) && calls == old(calls) - {c}
      ensures s == old(calls)[c].report
      ensures mem == Some(MemEntry(s.payload, stamp, old(calls)[c].origin, placed))
    {
      Stamp(c, stamp);
      ghost var written;
      s, written := Place(c, placed);
    }
  }

  function FileAfter(disk: Option<DiskFile>, computed: Payload, at: real, w: WriteResult): Option<DiskFile> {
    match w
    case Written => Some(DiskFile(computed, at))
    case Failed(truncated) => if truncated then Some(DiskFile("", at)) else disk
  }

  // ---- a call that runs alone --------------------------------------------

  datatype Clock = Clock(
    memCheck: real, copied: real, diskCheck: real, read: real, write: real, stamp: real, placed: real)
  {
    predicate Ordered() {
      memCheck <= copied && memCheck <= diskCheck <= read <= write <= stamp <= placed && copied <= placed
    }
  }

  datatype Turn = Turn(served: Served, mem: Option<MemEntry>, disk: Option<DiskFile>)

  /** What a call serves from the caches it finds, and the caches it leaves. */
  function Respond(
    mem: Option<MemEntry>, disk: Option<DiskFile>, clock: Clock, computed: Payload, w: WriteResult): Turn
  {
    if MemHit(mem, clock.memCheck) then Turn(Served(mem.value.payload, Memory), mem, disk)
    else if DiskHit(disk, clock.diskCheck) && disk.value.payload != "" then
      var origin := Origin(disk.value.mtime, clock.diskCheck, true);
      Turn(Served(disk.value.payload, Disk),
           Some(MemEntry(disk.value.payload, clock.stamp, origin, clock.placed)), disk)
    else if w.Written? then
      Turn(Served(computed, Fresh),
           Some(MemEntry(computed, clock.stamp, Origin(clock.write, clock.write, false), clock.placed)),
           Some(DiskFile(computed, clock.write)))
    else Turn(Served(computed, Fresh), mem, if w.truncated then Some(DiskFile("", clock.write)) else disk)
  }

  /**
    The bound is tight even for calls that never overlap: a disk hit just before expiry restarts the clock in
    memory, and a memory hit just before that expires serves a report twice the TTL old, but for any epsilon,
    plus the time the first call took to place it and the second to copy it.
   */
  method NearlyTheBound(payload: Payload, gap: real, wait: real, eps: real) returns (s: Served, age: real)
    requires payload != "" && gap >= 0.0 && wait >= 0.0 && 0.0 < eps < TTL
    ensures s == Served(payload, Memory) && age == 2.0 * TTL + gap + wait - eps
  {
    var half := eps / 2.0;
    var start := 1000.0;
    var cache := new Cache(Some(DiskFile(payload, start)), start);
    var checked := start + TTL - half;
    var placed := checked + gap;
    var first := cache.Report(0, Clock(checked, checked, checked, checked, placed, placed, placed), "", Written);
    var late := placed + TTL - half;
    cache.CheckMemory(0, late);
    ghost var written;
    s, written := cache.CopyMemory(0, late + wait);
    assert written == start;
    age := late + wait - start;
  }

  /**
    When the lifetime is exceeded at all: an entry can be served at the TTL's age or beyond exactly if its
    memory timestamp is later than the time it was written.
   */
  lemma OutlivesTtlExactly(entry: MemEntry)
    requires entry.origin.written <= entry.ts
    ensures (exists now :: now >= entry.ts && now - entry.origin.written >= TTL && MemHit(Some(entry), now)) <==>
            entry.ts > entry.origin.written
  {
    if entry.ts > entry.origin.written {
      var now := if entry.ts > entry.origin.written + TTL then entry.ts else entry.origin.written + TTL;
      assert MemHit(Some(entry), now);
    }
  }
}
