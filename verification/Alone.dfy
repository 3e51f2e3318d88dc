/**
 * What the system calls of one method add up to when nothing runs beside it, and what they leave alone
 * when something does: copies, removals and listings, to the store effects of the same methods.
 */
module Alone {
  import opened Wrappers
  import opened Paths
  import opened Metadata
  import opened FileSystem
  import opened StoreEffects
  import opened Volumes
  import opened Interleaving
  import opened Schedules

  /** Each system call of a schedule is the call of that name by the thread it names. */
  lemma StepIsCall(w: World, id: nat, u: World, ino: nat, dir: Path, ok: bool)
    requires id in w.threads
    ensures Step(w, OpenOld(id), u) <==> OpensOld(w, id, w.threads[id], u)
    ensures Step(w, ReadOld(id), u) <==> ReadsOld(w, id, w.threads[id], u)
    ensures Step(w, MkdirOne(id, dir), u) <==> MakesOne(w, dir, w.threads[id], u)
    ensures Step(w, MkdirDone(id, ok), u) <==> FinishesMaking(w, id, ok, w.threads[id], u)
    ensures Step(w, RemoveOld(id), u) <==> RemovesOld(w, id, w.threads[id], u)
    ensures Step(w, OpenRecord(id, ino), u) <==> OpensRecord(w, id, ino, w.threads[id], u)
    ensures Step(w, WriteRecord(id), u) <==> WritesRecord(w, id, w.threads[id], u)
  {
    hide OpensOld, ReadsOld, MakesOne, FinishesMaking, RemovesOld, OpensRecord, WritesRecord;
  }

  /** The same for the calls of copies, removals and listings. */
  lemma OtherStepIsCall(w: World, id: nat, u: World, entry: Path, dirs: seq<string>, ok: bool)
    requires id in w.threads
    ensures Step(w, CopyData(id), u) <==>
      w.threads[id].job.CopyJob? && w.threads[id].pc.Placed? && DataChange(w, w.threads[id].job.key, u)
    ensures Step(w, RemoveOne(id, entry), u) <==> RemovesOne(w, entry, w.threads[id], u)
    ensures Step(w, RemoveDone(id, ok), u) <==>
      w.threads[id].job.RemoveJob? && w.threads[id].pc.Begin? && u == With(w, id, Done(ok))
    ensures Step(w, ReadGroup(id, dirs), u) <==> ReadsGroup(w, id, dirs, w.threads[id], u)
    ensures Step(w, OpenListed(id), u) <==> OpensListed(w, id, w.threads[id], u)
    ensures Step(w, ReadListed(id), u) <==> ReadsListed(w, id, w.threads[id], u)
    ensures Step(w, ListDone(id), u) <==> EndsListing(w, id, w.threads[id], u)
  {
    hide DataChange, RemovesOne, ReadsGroup, OpensListed, ReadsListed, EndsListing;
  }

  // ---------------------------------------------------------------------------------------------
  // Copying
  // ---------------------------------------------------------------------------------------------

  /** The call is made, and reads the record it starts from. */
  ghost predicate Loads(w: World, id: nat, job: Job, w1: World, w2: World, w3: World) {
    && Starts(w, id, job, w1)
    && OpensOld(w1, id, w1.threads[id], w2)
    && ReadsOld(w2, id, w2.threads[id], w3) && w3.threads[id].pc.Ready?
  }

  /** Its new record is opened and written. */
  ghost predicate Records(w: World, id: nat, ino: nat, w': World, u: World) {
    && id in w.threads && OpensRecord(w, id, ino, w.threads[id], w')
    && id in w'.threads && WritesRecord(w', id, w'.threads[id], u)
  }

  lemma CopyLoads(w: World, id: nat, k: Key, src: string, w1: World, w2: World, w3: World) returns (v: Vol)
    requires Inv(w) && Loads(w, id, CopyJob(k, src), w1, w2, w3)
    ensures LoadMeta(View(w), k.vg, src) == Some(v)
    ensures id in w3.threads && w3.threads[id] == Thread(CopyJob(k, src), Ready(v.(name := k.name)))
    ensures Inv(w3) && View(w3) == View(w) && ProperJob(CopyJob(k, src))
  {
    StartKeeps(w, id, CopyJob(k, src), w1);
    OpensOldKeeps(w1, id, w1.threads[id], w2);
    ReadsOldKeeps(w2, id, w2.threads[id], w3);
    v := Decode(w.data[w.names[MetaOf(Key(k.vg, src))].ino]).value;
    SameView(w, w3);
  }

  /**
   * The steps of a copy that nothing interrupts, when its data step is the walk, are the copy of the
   * store method: a clone and a snapshot alike.
   */
  lemma CopyAlone(w: World, id: nat, k: Key, src: string, ino: nat, w1: World, w2: World, w3: World, w4: World, w5: World,
                  w6: World, u: World)
    requires Inv(w) && WellFormed(View(w))
    requires Loads(w, id, CopyJob(k, src), w1, w2, w3)
    requires id in w3.threads && FinishesMaking(w3, id, true, w3.threads[id], w4)
    requires DataChange(w4, k, w5) && Walked(View(w4), MountPath(k.vg, src), MountOf(k), View(w5))
    requires Records(w5, id, ino, w6, u)
    ensures CopyEffect(View(w), k.vg, src, k.name, true, View(u))
  {
    var v := CopyLoads(w, id, k, src, w1, w2, w3);
    hide Loads;
    CopyMakes(w3, id, v.(name := k.name), k, src, w4, w5);
    CopyRecorded(w5, id, k, v.(name := k.name), ino, w6, u);
    hide View, Walked, Inv, FinishesMaking, Records, DataChange, CanOpen, Recorded, WellFormed, CopyEffect, LoadMeta;
    CopyEffectDone(View(w), k.vg, src, k.name, v, View(w5), View(u));
  }

  lemma CopyRecorded(w: World, id: nat, k: Key, rec: Vol, ino: nat, w': World, u: World)
    requires Inv(w) && id in w.threads && w.threads[id].job.key == k && w.threads[id].pc == Placed(rec)
    requires Records(w, id, ino, w', u)
    ensures CanOpen(View(w), MetaPath(k.vg, k.name)) && View(u) == Recorded(View(w), MetaPath(k.vg, k.name), rec)
  {
    OpenableSeen(w, k);
    RecordSeen(w, id, k, rec, ino, w', u);
    hide View, Inv, Encode, Overwrite, DataAt, WritesRecord;
    WrittenOnce(View(w), MetaOf(k), Encode(rec), View(w'), View(u));
  }

  lemma CopyMakes(w: World, id: nat, rec: Vol, k: Key, src: string, w': World, u: World)
    requires Inv(w) && id in w.threads && w.threads[id] == Thread(CopyJob(k, src), Ready(rec))
    requires FinishesMaking(w, id, true, w.threads[id], w') && DataChange(w', k, u)
    ensures Inv(u) && id in u.threads && u.threads[id] == Thread(CopyJob(k, src), Placed(rec))
    ensures CanMake(View(w), MountOf(k)) && View(w') == Made(View(w), MountOf(k))
  {
    FinishesMakingKeeps(w, id, true, w.threads[id], w');
    MakingSeen(w, id, w.threads[id], w');
    DataChangeKeeps(w', k, u);
  }

  // ---------------------------------------------------------------------------------------------
  // Going on
  // ---------------------------------------------------------------------------------------------

  /** A copy or an expansion that has begun can read the record it starts from, and goes on exactly when it is readable. */
  lemma ReadsRecord(w: World, id: nat) returns (w': World, u: World)
    requires Inv(w) && id in w.threads && w.threads[id].pc.Begin?
    requires w.threads[id].job.CopyJob? || w.threads[id].job.ExpandJob?
    ensures OpensOld(w, id, w.threads[id], w') && id in w'.threads && View(u) == View(w)
    ensures u == w' || ReadsOld(w', id, w'.threads[id], u)
    ensures var job, k := w.threads[id].job, OldKey(w.threads[id].job);
      u.threads == w.threads[id := Thread(job, Loaded(job, LoadMeta(View(w), k.vg, k.name)))]
  {
    var th, k := w.threads[id], OldKey(w.threads[id].job);
    w' := With(w, id, Found(w, MetaOf(k)));
    SameView(w, w');
    RecordSeenAs(w, k);
    hide View, MetaOf, LoadMeta, Decode;
    if IsRecord(w, MetaOf(k)) {
      assert Owns(w, w.names[MetaOf(k)].ino, k);
      u := With(w', id, Loaded(th.job, Decode(w.data[w.names[MetaOf(k)].ino])));
      SameView(w', u);
    } else {
      u := w';
    }
  }

  lemma RecordSeenAs(w: World, k: Key)
    requires Inv(w)
    ensures LoadMeta(View(w), k.vg, k.name) ==
      if IsRecord(w, MetaOf(k)) && w.names[MetaOf(k)].ino in w.data then Decode(w.data[w.names[MetaOf(k)].ino]) else None
  {
    hide Decode;
    if IsRecord(w, MetaOf(k)) {
      assert Owns(w, w.names[MetaOf(k)].ino, k);
    }
  }

  /** What a call writes: an expansion the new size, a copy the new name, and nothing else of the record changes. */
  lemma NewRecordExactly(job: Job, v: Vol)
    requires job.CopyJob? || job.ExpandJob?
    ensures var r := NewRecord(job, v);
      && Loaded(job, Some(v)) == Ready(r) && Loaded(job, None) == Done(false)
      && r.name == (if job.CopyJob? then job.key.name else v.name) && r.size == (if job.ExpandJob? then job.size else v.size)
      && r.vgName == v.vgName && r.status == v.status && r.tags == v.tags
      && r.snapshotName == v.snapshotName && r.cloneName == v.cloneName
  {
  }

  /** While directories are missing and no file is in the way, the next one can be made. */
  lemma MakingGoesOn(w: World, id: nat) returns (dir: Path, u: World)
    requires WellFormed(View(w)) && id in w.threads && w.threads[id].pc.Ready? && !w.threads[id].job.ExpandJob?
    requires var to := MountOf(w.threads[id].job.key); to !in w.names && CanMake(View(w), to)
    ensures Step(w, MkdirOne(id, dir), u) && dir !in w.names && dir in u.names
  {
    var to := MountOf(w.threads[id].job.key);
    dir := FirstMissing(w, to);
    u := w.(names := w.names[dir := Directory]);
    assert View(w)[Parent(dir)].Dir?;
  }

  lemma FirstMissing(w: World, p: Path) returns (dir: Path)
    requires p !in w.names && [] in w.names
    ensures dir <= p && dir !in w.names && dir != [] && Parent(dir) in w.names && Parent(dir) <= p
    decreases |p|
  {
    dir := p;
    if Parent(p) !in w.names {
      dir := FirstMissing(w, Parent(p));
    }
  }

  /** When they are made, the call goes on to its record. */
  lemma MakingEnds(w: World, id: nat) returns (u: World)
    requires id in w.threads && w.threads[id].pc.Ready? && !w.threads[id].job.ExpandJob?
    requires CanMake(View(w), MountOf(w.threads[id].job.key))
    ensures Step(w, MkdirDone(id, true), u) && View(u) == Made(View(w), MountOf(w.threads[id].job.key))
    ensures u.threads == w.threads[id := w.threads[id].(pc := Placed(w.threads[id].pc.rec))]
  {
    var th := w.threads[id];
    u := With(w, id, Placed(th.pc.rec)).(names := DirectoriesMade(w.names, MountOf(th.job.key)));
    forall q | q <= MountOf(th.job.key) && q in w.names
      ensures w.names[q].Directory?
    {
      assert View(w)[q].Dir?;
    }
    MakingSeen(w, id, th, u);
  }

  /** A call whose directories are there can open its record, new or not, and write it. */
  lemma RecordGoesOn(w: World, id: nat) returns (ino: nat, w': World, u: World)
    requires Inv(w) && id in w.threads && w.threads[id].pc.Placed? && CanOpen(View(w), MetaOf(w.threads[id].job.key))
    ensures OpensRecord(w, id, ino, w.threads[id], w') && id in w'.threads && WritesRecord(w', id, w'.threads[id], u)
    ensures var th, meta := w.threads[id], MetaOf(w.threads[id].job.key);
      && u.threads == w.threads[id := Thread(th.job, Done(true))]
      && View(u) == View(w)[meta := File(Overwrite(DataAt(View(w), meta), Encode(th.pc.rec)))]
  {
    var th, k := w.threads[id], w.threads[id].job.key;
    ino := FreshInode(w);
    OpenableSeen(w, k);
    w' := OpensAlone(w, id, ino);
    u := WritesAlone(w', id);
    hide View, Inv, MetaOf, Home, Encode, Overwrite, DataAt, OpensRecord, WritesRecord;
    RecordSeen(w, id, k, th.pc.rec, ino, w', u);
    WrittenOnce(View(w), MetaOf(k), Encode(th.pc.rec), View(w'), View(u));
  }

  /** Where the record cannot be opened the call ends with an error and changes nothing. */
  lemma RecordRefused(w: World, id: nat, ino: nat, u: World)
    requires id in w.threads && w.threads[id].pc.Placed? && !CanOpen(View(w), MetaOf(w.threads[id].job.key))
    ensures OpensRecord(w, id, ino, w.threads[id], u) <==> u == With(w, id, Done(false))
  {
    OpenableSeen(w, w.threads[id].job.key);
  }

  lemma WritesAlone(w: World, id: nat) returns (u: World)
    requires id in w.threads && w.threads[id].pc.Writing? && w.threads[id].pc.ino in w.data
    ensures WritesRecord(w, id, w.threads[id], u) && u.threads == w.threads[id := w.threads[id].(pc := Done(true))]
  {
    var pc := w.threads[id].pc;
    u := With(w, id, Done(true)).(data := w.data[pc.ino := Overwrite(w.data[pc.ino], Encode(pc.rec))]);
  }

  lemma WrittenOnce(t: Tree, meta: Path, text: string, t': Tree, u: Tree)
    requires t' == t[meta := File(DataAt(t, meta))]
    requires u == t'[meta := File(Overwrite(DataAt(t', meta), text))]
    ensures u == t[meta := File(Overwrite(DataAt(t, meta), text))]
  {
  }

  lemma OpenableSeen(w: World, k: Key)
    ensures CanOpen(View(w), MetaOf(k)) <==>
      IsRecord(w, MetaOf(k)) || (MetaOf(k) !in w.names && IsDirectory(w, Home(k)))
  {
    KeyPaths(k);
  }

  lemma OpensAlone(w: World, id: nat, ino: nat) returns (w': World)
    requires Inv(w) && id in w.threads && w.threads[id].pc.Placed?
    requires ino !in w.data && ino !in w.owner && forall p :: p in w.names ==> w.names[p] != Inode(ino)
    requires var k := w.threads[id].job.key; IsRecord(w, MetaOf(k)) || (MetaOf(k) !in w.names && IsDirectory(w, Home(k)))
    ensures OpensRecord(w, id, ino, w.threads[id], w') && id in w'.threads
    ensures w'.threads[id].pc.Writing? && w'.threads[id].pc.ino in w'.data && w'.threads[id].pc.rec == w.threads[id].pc.rec
    ensures w'.threads == w.threads[id := w'.threads[id]] && w'.threads[id].job == w.threads[id].job
  {
    var th, meta := w.threads[id], MetaOf(w.threads[id].job.key);
    if IsRecord(w, meta) {
      assert Owns(w, w.names[meta].ino, th.job.key);
      w' := With(w, id, Writing(th.pc.rec, w.names[meta].ino));
    } else {
      w' := With(w, id, Writing(th.pc.rec, ino)).(names := w.names[meta := Inode(ino)], data := w.data[ino := ""],
                                                  owner := w.owner[ino := th.job.key]);
    }
  }

  lemma FreshInode(w: World) returns (ino: nat)
    ensures ino !in w.data && ino !in w.owner && forall p :: p in w.names ==> w.names[p] != Inode(ino)
  {
    var used := w.data.Keys + w.owner.Keys + (set p | p in w.names && w.names[p].Inode? :: w.names[p].ino);
    ino := Unused(used);
  }

  lemma Unused(used: set<nat>) returns (n: nat)
    ensures forall m :: m in used ==> m < n
    decreases used
  {
    n := 0;
    if used != {} {
      var m :| m in used;
      var rest := Unused(used - {m});
      n := if m < rest then rest else m + 1;
      assert forall x :: x in used ==> x == m || x in used - {m};
    }
  }

  // ---------------------------------------------------------------------------------------------
  // Removing
  // ---------------------------------------------------------------------------------------------

  /** A run of removals of single entries, all of one call. */
  ghost predicate Removals(worlds: seq<World>, th: Thread) {
    |worlds| > 0 && forall i :: 0 <= i < |worlds| - 1 ==> RemovalAt(worlds, th, i)
  }

  ghost predicate RemovalAt(worlds: seq<World>, th: Thread, i: nat)
    requires i + 1 < |worlds|
  {
    RemovesSome(worlds[i], th, worlds[i + 1])
  }

  ghost predicate RemovesSome(w: World, th: Thread, u: World) {
    exists entry :: RemovesOne(w, entry, th, u)
  }

  /** What is left of `t` when some entries at and below `home` were removed, inner ones first. */
  ghost predicate Pruned(t: Tree, home: Path, u: Tree) {
    && WellFormed(u)
    && (forall q :: q in u ==> q in t && u[q] == t[q])
    && (forall q :: q in t && !(home <= q) ==> q in u)
  }

  lemma OneNameLess(w: World, entry: Path, u: World)
    requires u == w.(names := w.names - {entry})
    ensures View(u) == View(w) - {entry} && View(w).Keys == w.names.Keys
  {
  }

  lemma OneRemoved(w: World, entry: Path, th: Thread, u: World, t: Tree)
    requires RemovesOne(w, entry, th, u) && Pruned(t, Home(th.job.key), View(w))
    ensures Pruned(t, Home(th.job.key), View(u))
  {
    OneNameLess(w, entry, u);
    hide View, Pruned;
    LeafPruned(t, Home(th.job.key), View(w), entry, View(u));
  }

  lemma LeafPruned(t: Tree, home: Path, a: Tree, entry: Path, u: Tree)
    requires Pruned(t, home, a) && home != [] && home <= entry
    requires u == a - {entry} && forall q :: q in a && entry <= q ==> q == entry
    ensures Pruned(t, home, u)
  {
    forall q | q in u && q != []
      ensures IsDir(u, Parent(q))
    {
      assert !(entry <= q) && Parent(q) <= q;
    }
  }

  lemma {:induction false} RemovalsPrune(worlds: seq<World>, th: Thread, i: nat)
    requires Removals(worlds, th) && WellFormed(View(worlds[0])) && i < |worlds|
    ensures Pruned(View(worlds[0]), Home(th.job.key), View(worlds[i]))
    decreases i
  {
    hide Pruned, RemovesOne, View, Home;
    if i == 0 {
      NothingPruned(View(worlds[0]), Home(th.job.key));
    } else {
      RemovalsPrune(worlds, th, i - 1);
      assert RemovalAt(worlds, th, i - 1);
      assert RemovesSome(worlds[i - 1], th, worlds[i]);
      var entry :| RemovesOne(worlds[i - 1], entry, th, worlds[i]);
      OneRemoved(worlds[i - 1], entry, th, worlds[i], View(worlds[0]));
    }
  }

  lemma NothingPruned(t: Tree, home: Path)
    requires WellFormed(t)
    ensures Pruned(t, home, t)
  {
  }

  /**
   * The removals of a call that nothing interrupts are over when the volume's directory is gone, and then
   * they add up to the removal of the store method; while something is there, one more is possible.
   */
  lemma RemoveAlone(worlds: seq<World>, th: Thread)
    requires Removals(worlds, th) && WellFormed(View(worlds[0])) && th.job.RemoveJob? && th.pc.Begin?
    ensures var k, last := th.job.key, worlds[|worlds| - 1];
      && (Home(k) !in last.names ==> RemoveEffect(View(worlds[0]), k.vg, k.name, View(last)))
      && (Home(k) in last.names ==> exists u :: RemovesSome(last, th, u))
  {
    var k, last := th.job.key, worlds[|worlds| - 1];
    RemovalsPrune(worlds, th, |worlds| - 1);
    hide Removals, RemovesSome;
    if Home(k) in last.names {
      var entry := Innermost(last, Home(k));
      CanRemove(last, entry, th);
    } else {
      AllPruned(View(worlds[0]), Home(k), View(last));
    }
  }

  lemma AllPruned(t: Tree, home: Path, u: Tree)
    requires Pruned(t, home, u) && home !in u
    ensures u == RemovedAll(t, home)
  {
    forall q | q in u
      ensures !(home <= q)
    {
      if home <= q {
        AncestorsAreDirs(u, q, home);
      }
    }
  }

  lemma CanRemove(w: World, entry: Path, th: Thread)
    requires th.job.RemoveJob? && th.pc.Begin? && Home(th.job.key) <= entry
    requires forall q :: q in w.names && entry <= q ==> q == entry
    ensures exists u :: RemovesSome(w, th, u)
  {
    var u := w.(names := w.names - {entry});
    assert RemovesOne(w, entry, th, u);
    assert RemovesSome(w, th, u);
  }

  /** Below every entry there is one with nothing below it. */
  lemma Innermost(w: World, p: Path) returns (entry: Path)
    requires p in w.names
    ensures entry in w.names && p <= entry && forall q :: q in w.names && entry <= q ==> q == entry
    decreases w.names.Keys - AboveOrAt(w, p)
  {
    if q :| q in w.names && p <= q && q != p {
      assert AboveOrAt(w, q) > AboveOrAt(w, p) by {
        assert q in AboveOrAt(w, q) && q !in AboveOrAt(w, p);
        forall x | x in AboveOrAt(w, p)
          ensures x in AboveOrAt(w, q)
        {
          PrefixTransitive(x, p, q);
        }
      }
      entry := Innermost(w, q);
      PrefixTransitive(p, q, entry);
    } else {
      entry := p;
    }
  }

  function AboveOrAt(w: World, p: Path): set<Path> {
    set x | x in w.names && x <= p
  }

  // ---------------------------------------------------------------------------------------------
  // Listing
  // ---------------------------------------------------------------------------------------------

  /** The records of the directories read so far are those stored in them. */
  ghost predicate ReadSoFar(t: Tree, vg: string, seen: seq<string>, vols: seq<Vol>) {
    |vols| == |seen| && forall i :: 0 <= i < |vols| ==> LoadMeta(t, vg, seen[i]) == Some(vols[i])
  }

  /** How far a listing has come on a tree that stays as it is. */
  ghost predicate ListsOn(w: World, vg: string, pc: Pc) {
    var t := View(w);
    match pc
    case Begin => true
    case Listing(dirs, todo, seen, vols) => GroupDirs(t, vg, dirs) && seen + todo == dirs && ReadSoFar(t, vg, seen, vols)
    case Reading(dirs, todo, seen, vols, dir, ino) =>
      && GroupDirs(t, vg, dirs) && seen + ([dir] + todo) == dirs && ReadSoFar(t, vg, seen, vols)
      && MetaPath(vg, dir) in w.names && w.names[MetaPath(vg, dir)] == Inode(ino)
    case Listed(dirs, vols) => Lists(t, vg, dirs, vols)
    case Done(_) => ListingFails(t, vg)
    case _ => false
  }

  predicate ListAction(a: Action, id: nat) {
    (a.ReadGroup? || a.OpenListed? || a.ReadListed? || a.ListDone?) && a.id == id
  }

  /** The listing is at a point from which it goes on to a result. */
  ghost predicate ListerAt(w: World, id: nat, vg: string) {
    && id in w.threads && w.threads[id].job.ListJob? && w.threads[id].job.key.vg == vg
    && ListsOn(w, vg, w.threads[id].pc)
  }

  lemma GroupRead(w: World, id: nat, dirs: seq<string>, th: Thread, u: World)
    requires id in w.threads && th == w.threads[id] && ReadsGroup(w, id, dirs, th, u) && WellFormed(View(w))
    ensures ListerAt(u, id, th.job.key.vg) && View(u) == View(w)
  {
    SameView(w, u);
    var t, vg := View(w), th.job.key.vg;
    if GroupPath(vg) !in w.names {
      EmptyGroup(t, vg);
    } else if IsDirectory(w, GroupPath(vg)) {
      assert forall c :: IsDirectory(w, GroupPath(vg) + [c]) <==> IsDir(t, GroupPath(vg) + [c]);
      assert [] + dirs == dirs;
    }
  }

  lemma ListedOpened(w: World, id: nat, th: Thread, u: World)
    requires ListerAt(w, id, th.job.key.vg) && th == w.threads[id] && OpensListed(w, id, th, u)
    ensures ListerAt(u, id, th.job.key.vg) && View(u) == View(w)
  {
    SameView(w, u);
    var t, vg, dir := View(w), th.job.key.vg, th.pc.todo[0];
    assert th.pc.todo == [dir] + th.pc.todo[1..];
    assert dir in th.pc.dirs by {
      assert th.pc.dirs[|th.pc.seen|] == dir;
    }
    if !IsRecord(w, MetaPath(vg, dir)) {
      assert IsDir(t, GroupPath(vg) + [dir]) && LoadMeta(t, vg, dir).None?;
    }
  }

  lemma ListedRead(w: World, id: nat, th: Thread, u: World)
    requires ListerAt(w, id, th.job.key.vg) && th == w.threads[id] && ReadsListed(w, id, th, u)
    ensures ListerAt(u, id, th.job.key.vg) && View(u) == View(w)
  {
    SameView(w, u);
    var t, vg, dir := View(w), th.job.key.vg, th.pc.dir;
    assert t[MetaPath(vg, dir)] == File(w.data[th.pc.ino]);
    assert LoadMeta(t, vg, dir) == Decode(w.data[th.pc.ino]);
    assert dir in th.pc.dirs by {
      assert th.pc.dirs[|th.pc.seen|] == dir;
    }
    assert IsDir(t, GroupPath(vg) + [dir]);
    assert th.pc.seen + ([dir] + th.pc.todo) == th.pc.seen + [dir] + th.pc.todo;
  }

  lemma ListingEnded(w: World, id: nat, th: Thread, u: World)
    requires ListerAt(w, id, th.job.key.vg) && th == w.threads[id] && EndsListing(w, id, th, u)
    ensures ListerAt(u, id, th.job.key.vg) && View(u) == View(w)
  {
    SameView(w, u);
    assert th.pc.seen + [] == th.pc.seen;
  }

  lemma ListStepAlone(w: World, a: Action, u: World, id: nat, vg: string)
    requires Step(w, a, u) && ListAction(a, id) && ListerAt(w, id, vg) && WellFormed(View(w))
    ensures ListerAt(u, id, vg) && View(u) == View(w)
  {
    var th := w.threads[id];
    assert Calls(w, a, th, u);
    hide ListsOn, View, WellFormed, ReadsGroup, OpensListed, ReadsListed, EndsListing;
    match a
    case ReadGroup(_, dirs) => GroupRead(w, id, dirs, th, u);
    case OpenListed(_) => ListedOpened(w, id, th, u);
    case ReadListed(_) => ListedRead(w, id, th, u);
    case ListDone(_) => ListingEnded(w, id, th, u);
  }

  /**
   * A listing that runs alone: when it has ended it has the records of the group's directories, one for
   * each, or the group cannot be listed; and it changes nothing.
   */
  lemma {:induction false} ListAlone(worlds: seq<World>, actions: seq<Action>, id: nat, vg: string, i: nat)
    requires Schedule(worlds, actions) && i <= |actions| && WellFormed(View(worlds[0]))
    requires forall j :: 0 <= j < |actions| ==> ListAction(actions[j], id)
    requires ListerAt(worlds[0], id, vg) && worlds[0].threads[id].pc.Begin?
    ensures ListerAt(worlds[i], id, vg) && View(worlds[i]) == View(worlds[0])
    ensures var t, pc := View(worlds[0]), worlds[i].threads[id].pc;
      && (pc.Listed? ==> Lists(t, vg, pc.dirs, pc.vols) && !HalfMade(t, vg))
      && (pc.Done? ==> ListingFails(t, vg))
    decreases i
  {
    hide View, Step, ListAction;
    if i > 0 {
      ListAlone(worlds, actions, id, vg, i - 1);
      assert StepAt(worlds, actions, i - 1);
      ListStepAlone(worlds[i - 1], actions[i - 1], worlds[i], id, vg);
    }
    var t, pc := View(worlds[0]), worlds[i].threads[id].pc;
    if pc.Listed? {
      ListComplete(t, vg, pc.dirs, pc.vols);
    }
  }

  /** Until it has ended, one of its system calls is possible. */
  lemma ListGoesOn(w: World, id: nat, vg: string) returns (a: Action, u: World)
    requires Inv(w) && ListerAt(w, id, vg) && !w.threads[id].pc.Listed? && !w.threads[id].pc.Done?
    ensures ListAction(a, id) && Step(w, a, u)
  {
    var th := w.threads[id];
    assert ThreadOk(w, th);
    match th.pc
    case Begin =>
      a, u := GroupReadable(w, id, th);
    case Listing(_, todo, _, _) =>
      a := if todo == [] then ListDone(id) else OpenListed(id);
      u := With(w, id, if todo == [] then Listed(th.pc.dirs, th.pc.vols) else FoundListed(w, vg, th.pc));
    case Reading(_, _, _, _, _, ino) =>
      a, u := ReadListed(id), With(w, id, LoadedListed(th.pc, Decode(w.data[ino])));
  }

  lemma GroupReadable(w: World, id: nat, th: Thread) returns (a: Action, u: World)
    requires id in w.threads && th == w.threads[id] && th.job.ListJob? && th.pc.Begin?
    ensures ListAction(a, id) && Step(w, a, u)
  {
    var group := GroupPath(th.job.key.vg);
    var dirs := InSomeOrder(set p | p in w.names && w.names[p].Directory? && p != [] && Parent(p) == group :: p[|p| - 1]);
    forall c
      ensures c in dirs <==> IsDirectory(w, group + [c])
    {
      assert Parent(group + [c]) == group;
      forall p: Path | p != [] && Parent(p) == group && p[|p| - 1] == c
        ensures p == group + [c]
      {
        LastComponent(p);
      }
    }
    a := ReadGroup(id, dirs);
    u := With(w, id, if group !in w.names then Listed([], [])
                     else if !IsDirectory(w, group) then Done(false) else Listing(dirs, dirs, [], []));
  }

  lemma InSomeOrder(names: set<string>) returns (list: seq<string>)
    ensures NoDup(list) && forall c :: c in list <==> c in names
    decreases names
  {
    list := [];
    if names != {} {
      var c :| c in names;
      var rest := InSomeOrder(names - {c});
      list := [c] + rest;
    }
  }

  // ---------------------------------------------------------------------------------------------
  // Beside other calls
  // ---------------------------------------------------------------------------------------------

  /** The record file of `k` is the same file, with the same contents. */
  ghost predicate SameRecordFile(w: World, u: World, k: Key) {
    var meta := MetaOf(k);
    && (meta in w.names <==> meta in u.names)
    && (meta in w.names ==> w.names[meta] == u.names[meta])
    && (IsRecord(w, meta) ==>
          var i := w.names[meta].ino; (i in w.data <==> i in u.data) && (i in w.data ==> w.data[i] == u.data[i]))
  }

  lemma SameFileSameRecord(w: World, u: World, k: Key)
    requires SameRecordFile(w, u, k)
    ensures LoadMeta(View(w), k.vg, k.name) == LoadMeta(View(u), k.vg, k.name)
  {
    hide Decode;
  }

  /** A call about `k` removes, opens for writing or writes a record, or removes an entry. */
  predicate WritesTo(w: World, a: Action, k: Key) {
    (a.RemoveOld? || a.OpenRecord? || a.WriteRecord? || a.RemoveOne?) && a.id in w.threads && w.threads[a.id].job.key == k
  }

  lemma DataChangeApart(w: World, k: Key, u: World, k': Key)
    requires Inv(w) && DataChange(w, k, u)
    ensures SameRecordFile(w, u, k')
  {
    MetaPaths(k, k');
    if IsRecord(w, MetaOf(k')) {
      assert Owns(w, w.names[MetaOf(k')].ino, k');
    }
  }

  lemma OpeningApart(w: World, id: nat, ino: nat, th: Thread, u: World, k: Key)
    requires Inv(w) && id in w.threads && OpensRecord(w, id, ino, th, u) && th.job.key != k
    ensures SameRecordFile(w, u, k)
  {
    MetaPaths(th.job.key, k);
  }

  lemma WritingApart(w: World, id: nat, th: Thread, u: World, k: Key)
    requires Inv(w) && id in w.threads && w.threads[id] == th && WritesRecord(w, id, th, u) && th.job.key != k
    ensures SameRecordFile(w, u, k)
  {
    assert ThreadOk(w, th);
    if IsRecord(w, MetaOf(k)) {
      assert Owns(w, w.names[MetaOf(k)].ino, k);
    }
  }

  lemma RemovingApart(w: World, entry: Path, th: Thread, u: World, k: Key)
    requires RemovesOne(w, entry, th, u) && th.job.key != k
    ensures SameRecordFile(w, u, k)
  {
    KeyPaths(k);
    KeysApart(k, th.job.key, MetaOf(k));
  }

  lemma CallApart(w: World, a: Action, th: Thread, u: World, k: Key)
    requires Inv(w) && !a.PodWrites? && a.id in w.threads && th == w.threads[a.id] && Calls(w, a, th, u)
    requires !WritesTo(w, a, k)
    ensures SameRecordFile(w, u, k)
  {
    MetaPaths(th.job.key, k);
    MetaPaths(k, th.job.key);
    hide Inv, DataChange, OpensRecord, WritesRecord, RemovesOne, MetaOf, MountOf, Home, DirectoriesMade, Decode;
    match a
    case CopyData(_) => DataChangeApart(w, th.job.key, u, k);
    case OpenRecord(id, ino) => OpeningApart(w, id, ino, th, u, k);
    case WriteRecord(id) => WritingApart(w, id, th, u, k);
    case RemoveOne(_, entry) => RemovingApart(w, entry, th, u, k);
    case _ =>
  }

  /**
   * Whatever runs beside it, the record of a volume stays as it is, readable or not, until a call about
   * that very volume opens, writes or removes it.
   */
  lemma {:induction false} RecordStays(worlds: seq<World>, actions: seq<Action>, i: nat, j: nat, k: Key)
    requires Schedule(worlds, actions) && Inv(worlds[0]) && i <= j <= |actions|
    requires forall m :: i <= m < j ==> !WritesTo(worlds[m], actions[m], k)
    ensures LoadMeta(View(worlds[j]), k.vg, k.name) == LoadMeta(View(worlds[i]), k.vg, k.name)
    decreases j - i
  {
    hide View, LoadMeta, Step, WritesTo;
    if i < j {
      RecordStays(worlds, actions, i, j - 1, k);
      ScheduleKeeps(worlds, actions, j - 1);
      assert StepAt(worlds, actions, j - 1);
      StepApart(worlds[j - 1], actions[j - 1], worlds[j], k);
      SameFileSameRecord(worlds[j - 1], worlds[j], k);
    }
  }

  lemma StepApart(w: World, a: Action, u: World, k: Key)
    requires Inv(w) && Step(w, a, u) && !WritesTo(w, a, k)
    ensures SameRecordFile(w, u, k)
  {
    hide Inv, Calls, DataChange;
    if a.PodWrites? {
      DataChangeApart(w, a.key, u, k);
    } else if !a.Start? && !a.Crash? {
      CallApart(w, a, w.threads[a.id], u, k);
    }
  }
}
