/**
 * What every schedule of concurrent calls, crashes and pods' writes guarantees, and how the
 * system-call steps of a call that runs alone add up to the effect of the store method.
 */
module Schedules {
  import opened Wrappers
  import opened Paths
  import opened Metadata
  import opened FileSystem
  import opened StoreEffects
  import opened Volumes
  import opened Interleaving

  /** Any number of threads, stepping in any order and stopping anywhere. */
  ghost predicate Schedule(worlds: seq<World>, actions: seq<Action>) {
    && |worlds| == |actions| + 1
    && forall i :: 0 <= i < |actions| ==> StepAt(worlds, actions, i)
  }

  ghost predicate StepAt(worlds: seq<World>, actions: seq<Action>, i: nat)
    requires |worlds| == |actions| + 1 && i < |actions|
  {
    Step(worlds[i], actions[i], worlds[i + 1])
  }

  lemma {:induction false} ScheduleKeeps(worlds: seq<World>, actions: seq<Action>, i: nat)
    requires Schedule(worlds, actions) && Inv(worlds[0]) && i <= |actions|
    ensures Inv(worlds[i])
    decreases i
  {
    if i > 0 {
      ScheduleKeeps(worlds, actions, i - 1);
      assert StepAt(worlds, actions, i - 1);
      StepKeeps(worlds[i - 1], actions[i - 1], worlds[i]);
    }
  }

  /** The sizes that may be found in records are those there were at first and those requested since. */
  lemma {:induction false} AskedOnly(worlds: seq<World>, actions: seq<Action>, i: nat, size: UInt64)
    requires Schedule(worlds, actions) && i <= |actions| && size in worlds[i].asked
    ensures size in worlds[0].asked
         || exists j :: 0 <= j < i && actions[j].Start? && size in Asked(actions[j].job)
    decreases i
  {
    if i > 0 {
      assert StepAt(worlds, actions, i - 1);
      StepAsks(worlds[i - 1], actions[i - 1], worlds[i]);
      if size in worlds[i - 1].asked {
        AskedOnly(worlds, actions, i - 1, size);
      }
    }
  }

  lemma StepAsks(w: World, a: Action, u: World)
    requires Step(w, a, u)
    ensures u.asked == w.asked + if a.Start? then Asked(a.job) else {}
  {
  }

  /**
   * At every moment of every schedule: a record file that can be read names the very directory and
   * group it lies in, and holds a size that was asked for.
   */
  lemma ReadableRecordsAreTrue(worlds: seq<World>, actions: seq<Action>, i: nat, k: Key)
    requires Schedule(worlds, actions) && Inv(worlds[0]) && i <= |actions|
    ensures LoadMeta(View(worlds[i]), k.vg, k.name).Some? ==>
      TrueRecord(k, LoadMeta(View(worlds[i]), k.vg, k.name).value, worlds[i].asked)
  {
    var w := worlds[i];
    ScheduleKeeps(worlds, actions, i);
    if IsRecord(w, MetaOf(k)) && Decode(w.data[w.names[MetaOf(k)].ino]).Some? {
      ReadableIsTrue(k, w.data[w.names[MetaOf(k)].ino], w.asked);
    }
  }

  /** A listing has found these directories. */
  predicate HasDirs(pc: Pc) {
    pc.Listing? || pc.Reading? || pc.Listed?
  }

  /** They are the group's directories, each once; a missing group has none. */
  ghost predicate DirectoriesAt(w: World, vg: string, dirs: seq<string>) {
    if GroupPath(vg) !in w.names then dirs == []
    else NoDup(dirs) && forall c :: c in dirs <==> IsDirectory(w, GroupPath(vg) + [c])
  }

  /** The directories a listing has found were found by the step before, or are the group's at this moment. */
  ghost predicate DirsFrom(w: World, th: Thread, id: nat) {
    HasDirs(th.pc) ==>
      || (id in w.threads && w.threads[id].job == th.job && HasDirs(w.threads[id].pc) && w.threads[id].pc.dirs == th.pc.dirs)
      || DirectoriesAt(w, th.job.key.vg, th.pc.dirs)
  }

  lemma CallDirs(w: World, a: Action, th: Thread, u: World, id: nat)
    requires !a.PodWrites? && a.id in w.threads && th == w.threads[a.id] && Calls(w, a, th, u) && id in u.threads
    ensures DirsFrom(w, u.threads[id], id)
  {
    if a.ReadGroup? || a.OpenListed? || a.ReadListed? || a.ListDone? {
      ListCallDirs(w, a, th, u, id);
    } else {
      OtherCallDirs(w, a, th, u, id);
    }
  }

  lemma ListCallDirs(w: World, a: Action, th: Thread, u: World, id: nat)
    requires a.ReadGroup? || a.OpenListed? || a.ReadListed? || a.ListDone?
    requires a.id in w.threads && th == w.threads[a.id] && Calls(w, a, th, u) && id in u.threads
    ensures DirsFrom(w, u.threads[id], id)
  {
    hide Decode, MetaPath;
  }

  /** The other calls move their thread to where nothing is listed, or leave the threads alone. */
  lemma OtherCallDirs(w: World, a: Action, th: Thread, u: World, id: nat)
    requires !a.PodWrites? && !a.ReadGroup? && !a.OpenListed? && !a.ReadListed? && !a.ListDone?
    requires a.id in w.threads && th == w.threads[a.id] && Calls(w, a, th, u) && id in u.threads
    ensures DirsFrom(w, u.threads[id], id)
  {
    hide DirectoriesMade, Encode, Decode, Overwrite, NewRecord, MetaOf, MountOf, Home, DirectoriesAt;
  }

  lemma StepDirs(w: World, a: Action, u: World, id: nat)
    requires Step(w, a, u) && id in u.threads
    ensures DirsFrom(w, u.threads[id], id)
  {
    if !a.Start? && !a.Crash? && !a.PodWrites? {
      CallDirs(w, a, w.threads[a.id], u, id);
    }
  }

  /** At some moment before, the directories a listing has found were exactly those of the group. */
  lemma {:induction false} FoundAtOnce(worlds: seq<World>, actions: seq<Action>, i: nat, id: nat) returns (m: nat)
    requires Schedule(worlds, actions) && i <= |actions| && worlds[0].threads == map[]
    requires id in worlds[i].threads && HasDirs(worlds[i].threads[id].pc)
    ensures m < i && DirectoriesAt(worlds[m], worlds[i].threads[id].job.key.vg, worlds[i].threads[id].pc.dirs)
    decreases i
  {
    hide Step, DirectoriesAt;
    assert StepAt(worlds, actions, i - 1);
    StepDirs(worlds[i - 1], actions[i - 1], worlds[i], id);
    if DirectoriesAt(worlds[i - 1], worlds[i].threads[id].job.key.vg, worlds[i].threads[id].pc.dirs) {
      m := i - 1;
    } else {
      m := FoundAtOnce(worlds, actions, i - 1, id);
    }
  }

  /**
   * Every listing that ends, in every schedule, returns one record for each directory it found, in that
   * order, each true; and when it was started in the schedule, the directories it found are those the
   * group had at one moment before.
   */
  lemma ListingsAreTrue(worlds: seq<World>, actions: seq<Action>, i: nat, id: nat) returns (m: nat)
    requires Schedule(worlds, actions) && Inv(worlds[0]) && i <= |actions|
    requires id in worlds[i].threads && worlds[i].threads[id].pc.Listed?
    ensures var th := worlds[i].threads[id];
      && TrueRecords(th.job.key.vg, th.pc.dirs, th.pc.vols, worlds[i].asked)
      && (worlds[0].threads == map[] ==> m < i && DirectoriesAt(worlds[m], th.job.key.vg, th.pc.dirs))
  {
    m := 0;
    if worlds[0].threads == map[] {
      m := FoundAtOnce(worlds, actions, i, id);
    }
    ScheduleKeeps(worlds, actions, i);
    assert ThreadOk(worlds[i], worlds[i].threads[id]);
  }

  // ---------------------------------------------------------------------------------------------
  // Where schedules start
  // ---------------------------------------------------------------------------------------------

  /** The file tree as others see it. */
  function View(w: World): Tree {
    map p | p in w.names :: NodeOf(w, w.names[p])
  }

  function NodeOf(w: World, e: Entry): Node {
    match e
    case Directory => Dir
    case Inode(i) => File(if i in w.data then w.data[i] else "")
  }

  /** A complete store at rest; each record has an inode of its own, made for its volume. */
  ghost predicate AtRest(w: World, s: Store) {
    && Represents(View(w), s) && w.threads == map[]
    && (forall i :: i in w.owner ==> i in w.data)
    && (forall k: Key :: IsRecord(w, MetaOf(k)) ==> k in s && Owns(w, w.names[MetaOf(k)].ino, k))
    && (forall i :: i in w.owner ==> IsRecord(w, MetaOf(w.owner[i])) && w.names[MetaOf(w.owner[i])].ino == i)
    && (forall p :: IsRecord(w, p) && w.names[p].ino in w.owner ==> p == MetaOf(w.owner[w.names[p].ino]))
    && (forall k :: k in s ==> s[k].size in w.asked)
  }

  lemma RestIsSafe(w: World, s: Store)
    requires AtRest(w, s)
    ensures Inv(w)
  {
    forall i | i in w.owner
      ensures RecordText(w.owner[i], w.data[i], w.asked)
    {
      RestRecord(w, s, w.owner[i], i);
    }
    assert RecordsOk(w);
    assert NamesOk(w);
  }

  /** An empty disk is a store at rest. */
  lemma EmptyAtRest()
    ensures AtRest(World(map[[] := Directory], map[], map[], {}, map[]), map[])
  {
    assert View(World(map[[] := Directory], map[], map[], {}, map[])) == map[[] := Dir];
    NewDiskIsEmpty();
  }

  lemma RestRecord(w: World, s: Store, k: Key, i: nat)
    requires AllStored(View(w), s) && k in s && s[k].size in w.asked
    requires IsRecord(w, MetaOf(k)) && w.names[MetaOf(k)].ino == i && i in w.data
    ensures RecordText(k, w.data[i], w.asked)
  {
    assert Stored(View(w), k, s[k]);
    assert View(w)[MetaOf(k)] == File(w.data[i]);
    var text := Encode(Record(k.vg, k.name, s[k].size));
    assert text + "" == text;
    assert RecordThen(k, w.data[i], w.asked, s[k].size, "");
  }

  // ---------------------------------------------------------------------------------------------
  // A call that runs alone
  // ---------------------------------------------------------------------------------------------

  /** Directories made. */
  lemma MakingSeen(w: World, id: nat, th: Thread, u: World)
    requires id in w.threads && w.threads[id] == th && FinishesMaking(w, id, true, th, u)
    ensures CanMake(View(w), MountOf(th.job.key)) && View(u) == Made(View(w), MountOf(th.job.key))
    ensures u.threads[id].job == th.job && u.threads[id].pc == Placed(th.pc.rec)
  {
    ViewMade(w, u, MountOf(th.job.key));
  }

  lemma ViewMade(w: World, u: World, p: Path)
    requires u.names == DirectoriesMade(w.names, p) && u.data == w.data
    requires forall q :: q <= p && q in w.names ==> w.names[q].Directory?
    ensures CanMake(View(w), p) && View(u) == Made(View(w), p)
  {
    hide Made, DirectoriesMade;
  }

  /** The record opened: the tree as the others see it gains at most an empty file. */
  lemma OpeningSeen(w: World, id: nat, ino: nat, th: Thread, u: World)
    requires id in w.threads && w.threads[id] == th && OpensRecord(w, id, ino, th, u) && u.threads[id].pc.Writing?
    ensures IsRecord(u, MetaOf(th.job.key)) && u.names[MetaOf(th.job.key)] == Inode(u.threads[id].pc.ino)
    ensures u.threads[id] == Thread(th.job, Writing(th.pc.rec, u.threads[id].pc.ino))
    ensures !IsDir(View(w), MetaOf(th.job.key))
    ensures View(u) == View(w)[MetaOf(th.job.key) := File(DataAt(View(w), MetaOf(th.job.key)))]
  {
    var meta := MetaOf(th.job.key);
    if IsRecord(w, meta) {
      assert View(w)[meta] == File(DataAt(View(w), meta));
    } else {
      forall p | p in w.names
        ensures NodeOf(u, w.names[p]) == NodeOf(w, w.names[p])
      {
        assert w.names[p] != Inode(ino);
      }
    }
  }

  /** The record written: no other name leads to its inode. */
  lemma WritingSeen(w: World, id: nat, th: Thread, u: World)
    requires Inv(w) && id in w.threads && w.threads[id] == th && WritesRecord(w, id, th, u)
    requires IsRecord(w, MetaOf(th.job.key)) && w.names[MetaOf(th.job.key)] == Inode(th.pc.ino)
    ensures View(u) == View(w)[MetaOf(th.job.key) :=
      File(Overwrite(DataAt(View(w), MetaOf(th.job.key)), Encode(th.pc.rec)))]
  {
    var meta := MetaOf(th.job.key);
    forall p | p in w.names && p != meta
      ensures NodeOf(u, w.names[p]) == NodeOf(w, w.names[p])
    {
      assert Owns(w, th.pc.ino, th.job.key);
      assert IsRecord(w, p) && w.names[p].ino in w.owner ==> p == MetaOf(w.owner[w.names[p].ino]);
    }
  }

  /** The steps of a create that nothing interrupts are the create of the store method. */
  lemma CreateAlone(w: World, id: nat, k: Key, size: UInt64, ino: nat, w1: World, w2: World, w3: World, u: World)
    requires Inv(w)
    requires Starts(w, id, CreateJob(k, size), w1)
    requires FinishesMaking(w1, id, true, w1.threads[id], w2)
    requires OpensRecord(w2, id, ino, w2.threads[id], w3)
    requires WritesRecord(w3, id, w3.threads[id], u)
    ensures CreateEffect(View(w), k.vg, k.name, size, true, View(u))
  {
    CreateMakes(w, id, k, size, w1, w2);
    RecordSeen(w2, id, k, Record(k.vg, k.name, size), ino, w3, u);
    MetaPaths(k, k);
    CreatePutTogether(View(w), MountOf(k), MetaOf(k), Encode(Record(k.vg, k.name, size)), View(w2), View(w3), View(u));
  }

  /** The record opened and written, as the others see it. */
  lemma RecordSeen(w: World, id: nat, k: Key, rec: Vol, ino: nat, w': World, u: World)
    requires Inv(w) && id in w.threads && w.threads[id].job.key == k && w.threads[id].pc == Placed(rec)
    requires OpensRecord(w, id, ino, w.threads[id], w')
    requires WritesRecord(w', id, w'.threads[id], u)
    ensures !IsDir(View(w), MetaOf(k))
    ensures View(w') == View(w)[MetaOf(k) := File(DataAt(View(w), MetaOf(k)))]
    ensures View(u) == View(w')[MetaOf(k) := File(Overwrite(DataAt(View(w'), MetaOf(k)), Encode(rec)))]
  {
    hide View, Inv, MetaOf;
    OpensRecordKeeps(w, id, ino, w.threads[id], w');
    OpeningSeen(w, id, ino, w.threads[id], w');
    WritingSeen(w', id, w'.threads[id], u);
  }

  lemma CreateMakes(w: World, id: nat, k: Key, size: UInt64, w1: World, w2: World)
    requires Inv(w)
    requires Starts(w, id, CreateJob(k, size), w1)
    requires FinishesMaking(w1, id, true, w1.threads[id], w2)
    ensures id in w2.threads && w2.threads[id] == Thread(CreateJob(k, size), Placed(Record(k.vg, k.name, size)))
    ensures Inv(w2) && CanMake(View(w), MountOf(k)) && View(w2) == Made(View(w), MountOf(k))
  {
    StartKeeps(w, id, CreateJob(k, size), w1);
    FinishesMakingKeeps(w1, id, true, w1.threads[id], w2);
    SameView(w, w1);
    MakingSeen(w1, id, w1.threads[id], w2);
  }

  lemma SameView(w: World, u: World)
    requires u.names == w.names && u.data == w.data
    ensures View(u) == View(w)
  {
  }

  lemma CreatePutTogether(t: Tree, to: Path, meta: Path, text: string, t': Tree, t'': Tree, u: Tree)
    requires t' == Made(t, to) && !(meta <= to)
    requires t'' == t'[meta := File(DataAt(t', meta))]
    requires u == t''[meta := File(Overwrite(DataAt(t'', meta), text))]
    ensures u == Made(t, to)[meta := File(Overwrite(DataAt(t, meta), text))]
    ensures IsDir(t, meta) <==> IsDir(t', meta)
  {
  }

  /** The steps of an expansion that nothing interrupts are the expansion of the store method. */
  lemma ExpandAlone(w: World, id: nat, k: Key, size: UInt64, ino: nat, w1: World, w2: World, w3: World, w4: World,
                    w5: World, u: World)
    requires Inv(w)
    requires Starts(w, id, ExpandJob(k, size), w1)
    requires OpensOld(w1, id, w1.threads[id], w2)
    requires ReadsOld(w2, id, w2.threads[id], w3)
    requires RemovesOld(w3, id, w3.threads[id], w4)
    requires OpensRecord(w4, id, ino, w4.threads[id], w5)
    requires WritesRecord(w5, id, w5.threads[id], u)
    ensures ExpandEffect(View(w), k.vg, k.name, size, true, View(u))
  {
    var v := ExpandLoads(w, id, k, size, w1, w2, w3);
    RemovesOldKeeps(w3, id, w3.threads[id], w4);
    RemovingSeen(w3, id, w3.threads[id], w4);
    RecordSeen(w4, id, k, v.(size := size), ino, w5, u);
    ExpandPutTogether(View(w), MetaOf(k), Encode(v.(size := size)), View(w4), View(w5), View(u));
  }

  lemma ExpandLoads(w: World, id: nat, k: Key, size: UInt64, w1: World, w2: World, w3: World) returns (v: Vol)
    requires Inv(w)
    requires Starts(w, id, ExpandJob(k, size), w1)
    requires OpensOld(w1, id, w1.threads[id], w2)
    requires ReadsOld(w2, id, w2.threads[id], w3)
    requires w3.threads[id].pc.Ready?
    ensures LoadMeta(View(w), k.vg, k.name) == Some(v)
    ensures id in w3.threads && w3.threads[id] == Thread(ExpandJob(k, size), Ready(v.(size := size)))
    ensures Inv(w3) && View(w3) == View(w)
  {
    StartKeeps(w, id, ExpandJob(k, size), w1);
    OpensOldKeeps(w1, id, w1.threads[id], w2);
    ReadsOldKeeps(w2, id, w2.threads[id], w3);
    v := Decode(w.data[w.names[MetaOf(k)].ino]).value;
    SameView(w, w3);
  }

  lemma RemovingSeen(w: World, id: nat, th: Thread, u: World)
    requires id in w.threads && RemovesOld(w, id, th, u)
    ensures View(u) == if IsFile(View(w), MetaOf(th.job.key)) then View(w) - {MetaOf(th.job.key)} else View(w)
  {
  }

  lemma ExpandPutTogether(t: Tree, meta: Path, text: string, t': Tree, t'': Tree, u: Tree)
    requires IsFile(t, meta) && t' == t - {meta}
    requires t'' == t'[meta := File(DataAt(t', meta))]
    requires u == t''[meta := File(Overwrite(DataAt(t'', meta), text))]
    ensures u == t[meta := File(text)]
  {
    assert Overwrite("", text) == text;
  }

  // ---------------------------------------------------------------------------------------------
  // Two creates of one volume
  // ---------------------------------------------------------------------------------------------

  /**
   * Two creates of the same volume that both opened the new record before either wrote it: what is
   * left is the second size, or no readable record at all. It is readable exactly when the second size
   * has at least as many digits.
   */
  lemma RacingCreates(w: World, i: nat, j: nat, k: Key, m: UInt64, n: UInt64, ino: nat, between: World, u: World)
    requires i in w.threads && w.threads[i].pc == Writing(Record(k.vg, k.name, m), ino)
    requires j in w.threads && w.threads[j].pc == Writing(Record(k.vg, k.name, n), ino)
    requires i != j && ino in w.data && w.data[ino] == ""
    requires Step(w, WriteRecord(i), between) && Step(between, WriteRecord(j), u)
    ensures ino in u.data
    ensures Decode(u.data[ino]) == if |Decimal(n)| >= |Decimal(m)| then Some(Record(k.vg, k.name, n)) else None
  {
    var first, second := Record(k.vg, k.name, m), Record(k.vg, k.name, n);
    assert Overwrite("", Encode(first)) == Encode(first);
    OverwriteDecodes(first, second);
    RecordLength(k.vg, k.name, m, n);
  }

  // ---------------------------------------------------------------------------------------------
  // Schedules that leave a directory without a record
  // ---------------------------------------------------------------------------------------------

  lemma Starting(w: World, id: nat, k: Key, size: UInt64) returns (u: World)
    requires id !in w.threads && ValidKey(k)
    ensures Step(w, Start(id, CreateJob(k, size)), u)
    ensures u.threads == w.threads[id := Thread(CreateJob(k, size), Ready(Record(k.vg, k.name, size)))]
    ensures u.names == w.names && u.data == w.data && u.owner == w.owner
  {
    u := w.(threads := w.threads[id := Thread(CreateJob(k, size), Ready(Record(k.vg, k.name, size)))], asked := w.asked + {size});
  }

  lemma Making(w: World, id: nat, k: Key, rec: Vol) returns (u: World)
    requires id in w.threads && w.threads[id].job.CreateJob? && w.threads[id].job.key == k && w.threads[id].pc == Ready(rec)
    requires forall q :: q in w.names ==> w.names[q].Directory?
    ensures Step(w, MkdirDone(id, true), u)
    ensures u.threads == w.threads[id := w.threads[id].(pc := Placed(rec))]
    ensures u.names == DirectoriesMade(w.names, MountOf(k)) && u.data == w.data && u.owner == w.owner
  {
    u := With(w, id, Placed(rec)).(names := DirectoriesMade(w.names, MountOf(k)));
  }

  lemma OpeningNew(w: World, id: nat, k: Key, rec: Vol) returns (u: World)
    requires id in w.threads && w.threads[id].job.key == k && w.threads[id].pc == Placed(rec)
    requires w.data == map[] && w.owner == map[] && MetaOf(k) !in w.names && IsDirectory(w, Home(k))
    requires forall q :: q in w.names ==> w.names[q].Directory?
    ensures Step(w, OpenRecord(id, 0), u)
    ensures u.threads == w.threads[id := w.threads[id].(pc := Writing(rec, 0))]
    ensures u.names == w.names[MetaOf(k) := Inode(0)] && u.data == map[0 := ""]
  {
    u := With(w, id, Writing(rec, 0)).(names := w.names[MetaOf(k) := Inode(0)], data := w.data[0 := ""], owner := w.owner[0 := k]);
  }

  lemma OpeningThere(w: World, id: nat, k: Key, rec: Vol) returns (u: World)
    requires id in w.threads && w.threads[id].job.key == k && w.threads[id].pc == Placed(rec)
    requires MetaOf(k) in w.names && w.names[MetaOf(k)] == Inode(0)
    ensures Step(w, OpenRecord(id, 0), u)
    ensures u.threads == w.threads[id := w.threads[id].(pc := Writing(rec, 0))]
    ensures u.names == w.names && u.data == w.data
  {
    u := With(w, id, Writing(rec, 0));
  }

  lemma Writes(w: World, id: nat, rec: Vol) returns (u: World)
    requires id in w.threads && w.threads[id].pc == Writing(rec, 0) && 0 in w.data
    ensures Step(w, WriteRecord(id), u)
    ensures u.threads == w.threads[id := w.threads[id].(pc := Done(true))] && u.names == w.names
    ensures u.data == w.data[0 := Overwrite(w.data[0], Encode(rec))]
  {
    u := With(w, id, Done(true)).(data := w.data[0 := Overwrite(w.data[0], Encode(rec))]);
  }

  const EMPTY_WORLD := World(map[[] := Directory], map[], map[], {}, map[])

  /** Nothing but the directories of one volume; both threads are about to open its record. */
  ghost predicate BothPlaced(w: World, k: Key, m: UInt64, n: UInt64) {
    && w.threads == map[0 := Thread(CreateJob(k, m), Placed(Record(k.vg, k.name, m))),
                        1 := Thread(CreateJob(k, n), Placed(Record(k.vg, k.name, n)))]
    && w.data == map[] && w.owner == map[]
    && (forall q :: q in w.names <==> q <= MountOf(k)) && (forall q :: q in w.names ==> w.names[q] == Directory)
  }

  lemma FourSteps(w: World, w1: World, w2: World, w3: World, w4: World, a1: Action, a2: Action, a3: Action, a4: Action)
    requires Step(w, a1, w1) && Step(w1, a2, w2) && Step(w2, a3, w3) && Step(w3, a4, w4)
    ensures Schedule([w, w1, w2, w3, w4], [a1, a2, a3, a4])
  {
    hide Step;
  }

  lemma RaceStarts(k: Key, m: UInt64, n: UInt64) returns (worlds: seq<World>, actions: seq<Action>)
    requires ValidKey(k)
    ensures Schedule(worlds, actions) && |actions| == 4 && worlds[0] == EMPTY_WORLD && BothPlaced(worlds[4], k, m, n)
  {
    hide Step, Schedule, MountOf, DirectoriesMade, ValidKey;
    var w1 := Starting(EMPTY_WORLD, 0, k, m);
    var w2 := Starting(w1, 1, k, n);
    var w3 := Making(w2, 0, k, Record(k.vg, k.name, m));
    var w4 := Making(w3, 1, k, Record(k.vg, k.name, n));
    FourSteps(EMPTY_WORLD, w1, w2, w3, w4, Start(0, CreateJob(k, m)), Start(1, CreateJob(k, n)), MkdirDone(0, true), MkdirDone(1, true));
    worlds := [EMPTY_WORLD, w1, w2, w3, w4];
    actions := [Start(0, CreateJob(k, m)), Start(1, CreateJob(k, n)), MkdirDone(0, true), MkdirDone(1, true)];
  }

  /** Only the directories of one volume and its record. */
  ghost predicate RecordAmong(names: map<Path, Entry>, k: Key) {
    && (forall q :: q in names <==> q <= MountOf(k) || q == MetaOf(k))
    && (forall q :: q in names ==> names[q] == if q == MetaOf(k) then Inode(0) else Directory)
  }

  /** Both have written the one record file, the second over the first. */
  ghost predicate BothWritten(w: World, k: Key, m: UInt64, n: UInt64) {
    && w.threads == map[0 := Thread(CreateJob(k, m), Done(true)), 1 := Thread(CreateJob(k, n), Done(true))]
    && RecordAmong(w.names, k)
    && w.data == map[0 := Overwrite(Encode(Record(k.vg, k.name, m)), Encode(Record(k.vg, k.name, n)))]
  }

  lemma OverNothing(text: string)
    ensures Overwrite("", text) == text
  {
  }

  /** Both have opened the one new, empty record file. */
  ghost predicate BothOpened(w: World, k: Key, m: UInt64, n: UInt64) {
    && w.threads == map[0 := Thread(CreateJob(k, m), Writing(Record(k.vg, k.name, m), 0)),
                        1 := Thread(CreateJob(k, n), Writing(Record(k.vg, k.name, n), 0))]
    && RecordAmong(w.names, k)
    && w.data == map[0 := ""]
  }

  lemma RaceOpens(w: World, k: Key, m: UInt64, n: UInt64) returns (w1: World, w2: World)
    requires BothPlaced(w, k, m, n)
    ensures Step(w, OpenRecord(0, 0), w1) && Step(w1, OpenRecord(1, 0), w2) && BothOpened(w2, k, m, n)
  {
    MetaPaths(k, k);
    KeyPaths(k);
    hide Step, MountOf, MetaOf, Home;
    w1 := OpeningNew(w, 0, k, Record(k.vg, k.name, m));
    w2 := OpeningThere(w1, 1, k, Record(k.vg, k.name, n));
  }

  lemma RaceWrites(w: World, k: Key, m: UInt64, n: UInt64) returns (w3: World, w4: World)
    requires BothOpened(w, k, m, n)
    ensures Step(w, WriteRecord(0), w3) && Step(w3, WriteRecord(1), w4) && BothWritten(w4, k, m, n)
  {
    hide Step, Encode, Overwrite, RecordAmong, Record;
    w3 := Writes(w, 0, Record(k.vg, k.name, m));
    w4 := Writes(w3, 1, Record(k.vg, k.name, n));
    BothDone(w, w3, w4, CreateJob(k, m), CreateJob(k, n), Record(k.vg, k.name, m), Record(k.vg, k.name, n));
  }

  lemma BothDone(w: World, w3: World, w4: World, a: Job, b: Job, first: Vol, second: Vol)
    requires w.threads == map[0 := Thread(a, Writing(first, 0)), 1 := Thread(b, Writing(second, 0))] && w.data == map[0 := ""]
    requires w3.threads == w.threads[0 := w.threads[0].(pc := Done(true))]
    requires w4.threads == w3.threads[1 := w3.threads[1].(pc := Done(true))]
    requires w3.data == w.data[0 := Overwrite(w.data[0], Encode(first))]
    requires w4.data == w3.data[0 := Overwrite(w3.data[0], Encode(second))]
    ensures w4.threads == map[0 := Thread(a, Done(true)), 1 := Thread(b, Done(true))]
    ensures w4.data == map[0 := Overwrite(Encode(first), Encode(second))]
  {
    hide Encode;
    OverNothing(Encode(first));
  }

  lemma RaceEnds(w: World, k: Key, m: UInt64, n: UInt64) returns (worlds: seq<World>, actions: seq<Action>)
    requires BothPlaced(w, k, m, n)
    ensures Schedule(worlds, actions) && |actions| == 4 && worlds[0] == w && BothWritten(worlds[4], k, m, n)
  {
    hide Step, Schedule, BothPlaced, BothOpened, BothWritten;
    var w1, w2 := RaceOpens(w, k, m, n);
    var w3, w4 := RaceWrites(w2, k, m, n);
    FourSteps(w, w1, w2, w3, w4, OpenRecord(0, 0), OpenRecord(1, 0), WriteRecord(0), WriteRecord(1));
    worlds := [w, w1, w2, w3, w4];
    actions := [OpenRecord(0, 0), OpenRecord(1, 0), WriteRecord(0), WriteRecord(1)];
  }

  lemma SchedulesJoin(a: seq<World>, x: seq<Action>, b: seq<World>, y: seq<Action>)
    requires Schedule(a, x) && Schedule(b, y) && a[|x|] == b[0]
    ensures Schedule(a + b[1..], x + y)
  {
    var worlds, actions := a + b[1..], x + y;
    forall i | 0 <= i < |actions|
      ensures StepAt(worlds, actions, i)
    {
      if i < |x| {
        assert StepAt(a, x, i);
      } else {
        assert StepAt(b, y, i - |x|);
      }
    }
  }

  /**
   * From an empty disk, for every volume and every two sizes, there is a schedule in which two creates of
   * the volume both report success, and the record left is the second one's, or cannot be read when the
   * second size has fewer digits; then the group is half-made.
   */
  lemma RaceFromEmpty(k: Key, m: UInt64, n: UInt64) returns (worlds: seq<World>, actions: seq<Action>)
    requires ValidKey(k)
    ensures Schedule(worlds, actions) && worlds[0] == EMPTY_WORLD && AtRest(EMPTY_WORLD, map[])
    ensures var last := worlds[|actions|];
      && last.threads == map[0 := Thread(CreateJob(k, m), Done(true)), 1 := Thread(CreateJob(k, n), Done(true))]
      && LoadMeta(View(last), k.vg, k.name)
         == (if |Decimal(n)| >= |Decimal(m)| then Some(Record(k.vg, k.name, n)) else None)
      && (HalfMade(View(last), k.vg) <==> |Decimal(n)| < |Decimal(m)|)
  {
    EmptyAtRest();
    var front, x := RaceStarts(k, m, n);
    var back, y := RaceEnds(front[4], k, m, n);
    SchedulesJoin(front, x, back, y);
    worlds, actions := front + back[1..], x + y;
    assert worlds[|actions|] == back[4];
    RaceResult(back[4], k, m, n);
  }

  lemma RaceResult(w: World, k: Key, m: UInt64, n: UInt64)
    requires BothWritten(w, k, m, n)
    ensures LoadMeta(View(w), k.vg, k.name)
         == (if |Decimal(n)| >= |Decimal(m)| then Some(Record(k.vg, k.name, n)) else None)
    ensures HalfMade(View(w), k.vg) <==> |Decimal(n)| < |Decimal(m)|
  {
    OverwriteDecodes(Record(k.vg, k.name, m), Record(k.vg, k.name, n));
    RecordLength(k.vg, k.name, m, n);
    OneDirectory(View(w), k);
  }

  /** In a group of one directory, being half-made is that directory having no readable record. */
  lemma OneDirectory(t: Tree, k: Key)
    requires forall q :: q in t <==> q <= MountOf(k) || q == MetaOf(k)
    requires IsDir(t, Home(k))
    ensures HalfMade(t, k.vg) <==> LoadMeta(t, k.vg, k.name).None?
  {
    hide Decode;
    assert Home(k) == GroupPath(k.vg) + [k.name];
    forall c | IsDir(t, GroupPath(k.vg) + [c])
      ensures c == k.name
    {
      var q := GroupPath(k.vg) + [c];
      assert |q| == 4 && q[3] == c && |MetaOf(k)| == 5 && MountOf(k)[3] == k.name;
    }
  }

  /**
   * From an empty disk, for every volume, there is a schedule in which its create crashes and leaves the
   * group half-made.
   */
  lemma CrashFromEmpty(k: Key, size: UInt64) returns (worlds: seq<World>, actions: seq<Action>)
    requires ValidKey(k)
    ensures Schedule(worlds, actions) && worlds[0] == EMPTY_WORLD && AtRest(EMPTY_WORLD, map[])
    ensures actions == [Start(0, CreateJob(k, size)), MkdirDone(0, true), Crash(0)] && worlds[3].threads == map[]
    ensures HalfMade(View(worlds[3]), k.vg)
  {
    hide Step, HalfMade, View, MountOf, DirectoriesMade, ValidKey, AtRest;
    EmptyAtRest();
    var w1 := Starting(EMPTY_WORLD, 0, k, size);
    var w2 := Making(w1, 0, k, Record(k.vg, k.name, size));
    var w3 := Crashing(w2, 0);
    worlds, actions := [EMPTY_WORLD, w1, w2, w3], [Start(0, CreateJob(k, size)), MkdirDone(0, true), Crash(0)];
    assert forall i :: 0 <= i < 3 ==> StepAt(worlds, actions, i);
    DirectoriesOnly(w3, k);
  }

  lemma Crashing(w: World, id: nat) returns (u: World)
    ensures Step(w, Crash(id), u) && u == w.(threads := w.threads - {id})
  {
    u := w.(threads := w.threads - {id});
  }

  lemma DirectoriesOnly(w: World, k: Key)
    requires forall q :: q in w.names <==> q <= MountOf(k)
    requires forall q :: q in w.names ==> w.names[q].Directory?
    ensures HalfMade(View(w), k.vg)
  {
    KeyPaths(k);
    NoRecordYet(View(w), k);
  }

  lemma NoRecordYet(t: Tree, k: Key)
    requires forall q :: q in t <==> q <= MountOf(k)
    requires IsDir(t, Home(k))
    ensures HalfMade(t, k.vg)
  {
    MetaPaths(k, k);
    assert Home(k) == GroupPath(k.vg) + [k.name];
    assert LoadMeta(t, k.vg, k.name).None?;
  }
}
