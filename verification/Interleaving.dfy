/**
 * The store under concurrency. The service handles requests in parallel and takes no locks, so its
 * methods interleave call by call, and any of them may die between two calls. Here each method is a
 * thread that performs one system call per step. A file is an inode: a record that was opened and
 * then removed is still written and read through the open handle, but no longer seen under its name.
 */
module Interleaving {
  import opened Wrappers
  import opened Paths
  import opened Json
  import opened Metadata
  import opened FileSystem
  import opened StoreEffects
  import opened Volumes

  datatype Entry = Directory | Inode(ino: nat)

  /** A method call of the store; the listing is the only one that answers with records. */
  datatype Job =
    | CreateJob(key: Key, size: UInt64)
    | CopyJob(key: Key, src: string)
    | ExpandJob(key: Key, size: UInt64)
    | RemoveJob(key: Key)
    | ListJob(key: Key)

  /** How far a call has come; a listing keeps `dirs`, the directories it found in the group. */
  datatype Pc =
    | Begin
    | Loading(ino: nat)
    | Ready(rec: Vol)
    | Placed(rec: Vol)
    | Writing(rec: Vol, ino: nat)
    | Listing(dirs: seq<string>, todo: seq<string>, seen: seq<string>, vols: seq<Vol>)
    | Reading(dirs: seq<string>, todo: seq<string>, seen: seq<string>, vols: seq<Vol>, dir: string, ino: nat)
    | Listed(dirs: seq<string>, vols: seq<Vol>)
    | Done(ok: bool)

  datatype Thread = Thread(job: Job, pc: Pc)

  /**
   * `owner` says for which volume an inode was created as a record, and `asked` which sizes were ever
   * requested; both only serve to say what the contents mean.
   */
  datatype World = World(
    names: map<Path, Entry>, data: map<nat, string>, owner: map<nat, Key>, asked: set<UInt64>, threads: map<nat, Thread>)

  datatype Action =
    | Start(id: nat, job: Job)
    | Crash(id: nat)
    | OpenOld(id: nat)
    | ReadOld(id: nat)
    | MkdirOne(id: nat, dir: Path)
    | MkdirDone(id: nat, ok: bool)
    | CopyData(id: nat)
    | RemoveOld(id: nat)
    | OpenRecord(id: nat, ino: nat)
    | WriteRecord(id: nat)
    | RemoveOne(id: nat, entry: Path)
    | RemoveDone(id: nat, ok: bool)
    | ReadGroup(id: nat, dirs: seq<string>)
    | OpenListed(id: nat)
    | ReadListed(id: nat)
    | ListDone(id: nat)
    | PodWrites(key: Key)

  function With(w: World, id: nat, pc: Pc): World
    requires id in w.threads
  {
    w.(threads := w.threads[id := w.threads[id].(pc := pc)])
  }

  predicate IsRecord(w: World, p: Path) {
    p in w.names && w.names[p].Inode?
  }

  predicate IsDirectory(w: World, p: Path) {
    p in w.names && w.names[p].Directory?
  }

  /** The record a call starts from: a copy reads its source's, an expansion its own. */
  function OldKey(job: Job): Key {
    if job.CopyJob? then Key(job.key.vg, job.src) else job.key
  }

  function NewRecord(job: Job, old': Vol): Vol {
    match job
    case CopyJob(k, _) => old'.(name := k.name)
    case ExpandJob(_, size) => old'.(size := size)
    case _ => old'
  }

  function Asked(job: Job): set<UInt64> {
    match job
    case CreateJob(_, size) => {size}
    case ExpandJob(_, size) => {size}
    case _ => {}
  }

  predicate ProperJob(job: Job) {
    ValidKey(job.key) && (job.CopyJob? ==> ValidName(job.src))
  }

  /** Anything may happen below the mount point of `k`: files there are not records. */
  ghost predicate DataChange(w: World, k: Key, u: World) {
    && u.owner == w.owner && u.asked == w.asked && u.threads == w.threads
    && (forall p :: !(MountOf(k) <= p) ==> (p in w.names <==> p in u.names) && (p in w.names ==> w.names[p] == u.names[p]))
    && (forall p :: p in u.names && MountOf(k) <= p && u.names[p].Inode? ==> u.names[p].ino !in u.owner)
    && (forall i :: i in w.owner && i in w.data ==> i in u.data && u.data[i] == w.data[i])
  }

  /** One system call of one thread, a crash, or a pod's write. */
  ghost predicate Step(w: World, a: Action, u: World) {
    if a.Start? then Starts(w, a.id, a.job, u)
    else if a.Crash? then u == w.(threads := w.threads - {a.id})
    else if a.PodWrites? then ValidKey(a.key) && DataChange(w, a.key, u)
    else a.id in w.threads && Calls(w, a, w.threads[a.id], u)
  }

  ghost predicate Starts(w: World, id: nat, job: Job, u: World) {
    && id !in w.threads && ProperJob(job)
    && u == w.(threads := w.threads[id := Thread(job, FirstPc(job))], asked := w.asked + Asked(job))
  }

  /** A blank volume's record is known from the request; everything else starts by reading. */
  function FirstPc(job: Job): Pc {
    if job.CreateJob? then Ready(Record(job.key.vg, job.key.name, job.size)) else Begin
  }

  ghost predicate Calls(w: World, a: Action, th: Thread, u: World)
    requires !a.PodWrites? && a.id in w.threads
  {
    match a
    case OpenOld(id) => OpensOld(w, id, th, u)
    case ReadOld(id) => ReadsOld(w, id, th, u)
    case MkdirOne(_, dir) => MakesOne(w, dir, th, u)
    case MkdirDone(id, ok) => FinishesMaking(w, id, ok, th, u)
    case CopyData(_) => th.job.CopyJob? && th.pc.Placed? && DataChange(w, th.job.key, u)
    case RemoveOld(id) => RemovesOld(w, id, th, u)
    case OpenRecord(id, ino) => OpensRecord(w, id, ino, th, u)
    case WriteRecord(id) => WritesRecord(w, id, th, u)
    case RemoveOne(_, entry) => RemovesOne(w, entry, th, u)
    case RemoveDone(id, ok) => th.job.RemoveJob? && th.pc.Begin? && u == With(w, id, Done(ok))
    case ReadGroup(id, dirs) => ReadsGroup(w, id, dirs, th, u)
    case OpenListed(id) => OpensListed(w, id, th, u)
    case ReadListed(id) => ReadsListed(w, id, th, u)
    case ListDone(id) => EndsListing(w, id, th, u)
    case _ => false
  }

  // ---- The system calls -------------------------------------------------------------------------

  ghost predicate OpensOld(w: World, id: nat, th: Thread, u: World)
    requires id in w.threads
  {
    && (th.job.CopyJob? || th.job.ExpandJob?) && th.pc.Begin?
    && u == With(w, id, Found(w, MetaOf(OldKey(th.job))))
  }

  /** Opening a record for reading: its inode, or an error that ends the call. */
  function Found(w: World, meta: Path): Pc {
    if IsRecord(w, meta) then Loading(w.names[meta].ino) else Done(false)
  }

  ghost predicate ReadsOld(w: World, id: nat, th: Thread, u: World)
    requires id in w.threads
  {
    && th.pc.Loading? && th.pc.ino in w.data
    && u == With(w, id, Loaded(th.job, Decode(w.data[th.pc.ino])))
  }

  function Loaded(job: Job, old': Option<Vol>): Pc {
    match old'
    case None => Done(false)
    case Some(v) => Ready(NewRecord(job, v))
  }

  ghost predicate MakesOne(w: World, dir: Path, th: Thread, u: World) {
    && !th.job.ExpandJob? && th.pc.Ready?
    && dir <= MountOf(th.job.key) && dir !in w.names
    && dir != [] && IsDirectory(w, Parent(dir))
    && u == w.(names := w.names[dir := Directory])
  }

  /** The last directories are made; when that succeeds the whole path is there at that moment. */
  ghost predicate FinishesMaking(w: World, id: nat, ok: bool, th: Thread, u: World)
    requires id in w.threads
  {
    && !th.job.ExpandJob? && th.pc.Ready?
    && if ok then
         && (forall q :: q <= MountOf(th.job.key) && q in w.names ==> w.names[q].Directory?)
         && u == With(w, id, Placed(th.pc.rec)).(names := DirectoriesMade(w.names, MountOf(th.job.key)))
       else u == With(w, id, Done(false))
  }

  /** Expanding removes the record before it writes the new one. */
  ghost predicate RemovesOld(w: World, id: nat, th: Thread, u: World)
    requires id in w.threads
  {
    && th.job.ExpandJob? && th.pc.Ready?
    && u == With(w, id, Placed(th.pc.rec)).(names := WithoutRecord(w, MetaOf(th.job.key)))
  }

  function WithoutRecord(w: World, meta: Path): map<Path, Entry> {
    if IsRecord(w, meta) then w.names - {meta} else w.names
  }

  /** The record is opened without O_TRUNC: the file that is there, or a new empty one. */
  ghost predicate OpensRecord(w: World, id: nat, ino: nat, th: Thread, u: World)
    requires id in w.threads
  {
    th.pc.Placed? &&
    if IsRecord(w, MetaOf(th.job.key)) then
      u == With(w, id, Writing(th.pc.rec, w.names[MetaOf(th.job.key)].ino))
    else if MetaOf(th.job.key) !in w.names && IsDirectory(w, Home(th.job.key)) then
      NewRecordFile(w, id, ino, th, u)
    else
      u == With(w, id, Done(false))
  }

  ghost predicate NewRecordFile(w: World, id: nat, ino: nat, th: Thread, u: World)
    requires id in w.threads && th.pc.Placed?
  {
    && ino !in w.data && ino !in w.owner && (forall p :: p in w.names ==> w.names[p] != Inode(ino))
    && u == With(w, id, Writing(th.pc.rec, ino)).(names := w.names[MetaOf(th.job.key) := Inode(ino)],
              data := w.data[ino := ""], owner := w.owner[ino := th.job.key])
  }

  ghost predicate WritesRecord(w: World, id: nat, th: Thread, u: World)
    requires id in w.threads
  {
    && th.pc.Writing? && th.pc.ino in w.data
    && u == With(w, id, Done(true)).(data := w.data[th.pc.ino := Overwrite(w.data[th.pc.ino], Encode(th.pc.rec))])
  }

  /** Removing a volume takes its entries one by one, a directory only when it is empty. */
  ghost predicate RemovesOne(w: World, entry: Path, th: Thread, u: World) {
    && th.job.RemoveJob? && th.pc.Begin? && Home(th.job.key) <= entry
    && (forall q :: q in w.names && entry <= q ==> q == entry)
    && u == w.(names := w.names - {entry})
  }

  ghost predicate ReadsGroup(w: World, id: nat, dirs: seq<string>, th: Thread, u: World)
    requires id in w.threads
  {
    && th.job.ListJob? && th.pc.Begin?
    && if GroupPath(th.job.key.vg) !in w.names then u == With(w, id, Listed([], []))
       else if !IsDirectory(w, GroupPath(th.job.key.vg)) then u == With(w, id, Done(false))
       else
         && NoDup(dirs) && (forall c :: c in dirs <==> IsDirectory(w, GroupPath(th.job.key.vg) + [c]))
         && u == With(w, id, Listing(dirs, dirs, [], []))
  }

  ghost predicate OpensListed(w: World, id: nat, th: Thread, u: World)
    requires id in w.threads
  {
    && th.job.ListJob? && th.pc.Listing? && th.pc.todo != []
    && u == With(w, id, FoundListed(w, th.job.key.vg, th.pc))
  }

  function FoundListed(w: World, vg: string, pc: Pc): Pc
    requires pc.Listing? && pc.todo != []
  {
    var meta := MetaPath(vg, pc.todo[0]);
    if IsRecord(w, meta) then Reading(pc.dirs, pc.todo[1..], pc.seen, pc.vols, pc.todo[0], w.names[meta].ino)
    else Done(false)
  }

  ghost predicate ReadsListed(w: World, id: nat, th: Thread, u: World)
    requires id in w.threads
  {
    && th.job.ListJob? && th.pc.Reading? && th.pc.ino in w.data
    && u == With(w, id, LoadedListed(th.pc, Decode(w.data[th.pc.ino])))
  }

  /** One unreadable record fails the whole listing. */
  function LoadedListed(pc: Pc, v: Option<Vol>): Pc
    requires pc.Reading?
  {
    match v
    case None => Done(false)
    case Some(v) => Listing(pc.dirs, pc.todo, pc.seen + [pc.dir], pc.vols + [v])
  }

  ghost predicate EndsListing(w: World, id: nat, th: Thread, u: World)
    requires id in w.threads
  {
    th.job.ListJob? && th.pc.Listing? && th.pc.todo == [] && u == With(w, id, Listed(th.pc.dirs, th.pc.vols))
  }

  function DirectoriesMade(names: map<Path, Entry>, p: Path): (made: map<Path, Entry>)
    ensures forall q :: q in made <==> q in names || q <= p
    ensures forall q :: q in made ==> made[q] == if q in names then names[q] else Directory
    decreases |p|
  {
    var above := if p == [] then names else DirectoriesMade(names, Parent(p));
    assert forall q :: q in above || q == p <==> q in names || q <= p;
    if p in above then above else above[p := Directory]
  }

  // ---------------------------------------------------------------------------------------------
  // The invariant
  // ---------------------------------------------------------------------------------------------

  /** What a record file of `k` can hold: nothing, or a record of `k`, with what a longer record left behind it. */
  ghost predicate RecordText(k: Key, text: string, asked: set<UInt64>) {
    text == "" || exists size: UInt64, junk: string :: RecordThen(k, text, asked, size, junk)
  }

  ghost predicate RecordThen(k: Key, text: string, asked: set<UInt64>, size: UInt64, junk: string) {
    && size in asked && text == Encode(Record(k.vg, k.name, size)) + junk
    && (junk == "" || junk[|junk| - 1] == '}')
  }

  /** The record names the volume it is stored under, and a size that was asked for. */
  predicate TrueRecord(k: Key, v: Vol, asked: set<UInt64>) {
    v == Record(k.vg, k.name, v.size) && v.size in asked
  }

  ghost predicate TrueRecords(vg: string, seen: seq<string>, vols: seq<Vol>, asked: set<UInt64>) {
    |vols| == |seen| && forall i :: 0 <= i < |vols| ==> TrueRecord(Key(vg, seen[i]), vols[i], asked)
  }

  ghost predicate Owns(w: World, i: nat, k: Key) {
    i in w.owner && w.owner[i] == k
  }

  ghost predicate ThreadOk(w: World, th: Thread) {
    ProperJob(th.job) &&
    match th.pc
    case Begin => true
    case Loading(i) => (th.job.CopyJob? || th.job.ExpandJob?) && Owns(w, i, OldKey(th.job))
    case Ready(rec) => TrueRecord(th.job.key, rec, w.asked)
    case Placed(rec) => TrueRecord(th.job.key, rec, w.asked)
    case Writing(rec, i) => TrueRecord(th.job.key, rec, w.asked) && Owns(w, i, th.job.key)
    case Listing(dirs, todo, seen, vols) => seen + todo == dirs && TrueRecords(th.job.key.vg, seen, vols, w.asked)
    case Reading(dirs, todo, seen, vols, dir, i) =>
      && seen + ([dir] + todo) == dirs
      && TrueRecords(th.job.key.vg, seen, vols, w.asked) && Owns(w, i, Key(th.job.key.vg, dir))
    case Listed(dirs, vols) => TrueRecords(th.job.key.vg, dirs, vols, w.asked)
    case Done(_) => true
  }

  ghost predicate RecordsOk(w: World) {
    forall i :: i in w.owner ==> i in w.data && RecordText(w.owner[i], w.data[i], w.asked)
  }

  /** A record's name leads to an inode made for it, and such an inode has no other name. */
  ghost predicate NamesOk(w: World) {
    && (forall k: Key :: IsRecord(w, MetaOf(k)) ==> Owns(w, w.names[MetaOf(k)].ino, k))
    && (forall p :: IsRecord(w, p) && w.names[p].ino in w.owner ==> p == MetaOf(w.owner[w.names[p].ino]))
  }

  ghost predicate ThreadsOk(w: World) {
    && (forall id :: id in w.threads ==> ThreadOk(w, w.threads[id]))
    && (forall id :: id in w.threads && w.threads[id].job.ExpandJob? ==> w.threads[id].job.size in w.asked)
  }

  ghost predicate Inv(w: World) {
    RecordsOk(w) && NamesOk(w) && ThreadsOk(w)
  }

  // ---- Record files ----------------------------------------------------------------------------

  lemma EmptyDoesNotDecode()
    ensures Decode("").None?
  {
  }

  /** A record file that can be read holds a record of its own volume. */
  lemma ReadableIsTrue(k: Key, text: string, asked: set<UInt64>)
    requires RecordText(k, text, asked) && Decode(text).Some?
    ensures TrueRecord(k, Decode(text).value, asked)
  {
    EmptyDoesNotDecode();
    var size: UInt64, junk: string :| RecordThen(k, text, asked, size, junk);
    if junk != "" {
      NotBlank(junk);
    }
    DecodeEncode(Record(k.vg, k.name, size), junk);
  }

  /** Writing a record of the volume over whatever its record file can hold leaves what it can hold. */
  lemma WriteKeepsText(k: Key, text: string, asked: set<UInt64>, rec: Vol)
    requires RecordText(k, text, asked) && TrueRecord(k, rec, asked)
    ensures RecordText(k, Overwrite(text, Encode(rec)), asked)
  {
    var new' := Encode(rec);
    var junk := Leftover(text, new');
    if |new'| < |text| {
      TextEnd(k, text, asked);
      assert junk[|junk| - 1] == text[|text| - 1];
    } else {
      assert new' + "" == new';
    }
    assert RecordThen(k, Overwrite(text, new'), asked, rec.size, junk);
  }

  lemma TextEnd(k: Key, text: string, asked: set<UInt64>)
    requires RecordText(k, text, asked) && text != ""
    ensures text[|text| - 1] == '}'
  {
    var size: UInt64, junk: string :| RecordThen(k, text, asked, size, junk);
    EncodeEnd(Record(k.vg, k.name, size));
  }

  lemma TextMonotone(k: Key, text: string, asked: set<UInt64>, more: set<UInt64>)
    requires RecordText(k, text, asked) && asked <= more
    ensures RecordText(k, text, more)
  {
    if text != "" {
      var size: UInt64, junk: string :| RecordThen(k, text, asked, size, junk);
      assert RecordThen(k, text, more, size, junk);
    }
  }

  lemma MetaPaths(k: Key, k': Key)
    ensures MetaOf(k) == MetaOf(k') ==> k == k'
    ensures !(MountOf(k) <= MetaOf(k'))
    ensures !(MetaOf(k') <= MountOf(k)) && Home(k) != MetaOf(k')
  {
    MountsApart(k.vg, k.name, k.name);
    assert MetaOf(k)[2] == k.vg && MetaOf(k)[3] == k.name && MetaOf(k)[4] == MetaName();
    assert MetaOf(k')[2] == k'.vg && MetaOf(k')[3] == k'.name && MetaOf(k')[4] == MetaName();
    assert MountOf(k)[4] == MountName() && |MountName()| != |MetaName()|;
  }

  // ---- Every step keeps the invariant -----------------------------------------------------------

  /** A step that moves one thread on and leaves the disk as it is. */
  lemma ThreadMoved(w: World, id: nat, pc: Pc)
    requires Inv(w) && id in w.threads && ThreadOk(w, w.threads[id].(pc := pc))
    ensures Inv(With(w, id, pc))
  {
  }

  /** A change of names that neither adds a record nor touches an inode. */
  lemma NamesChanged(w: World, names: map<Path, Entry>)
    requires Inv(w)
    requires forall p :: p in names && names[p].Inode? ==> p in w.names && w.names[p] == names[p]
    ensures Inv(w.(names := names))
  {
    var u := w.(names := names);
    forall k: Key | IsRecord(u, MetaOf(k))
      ensures Owns(u, u.names[MetaOf(k)].ino, k)
    {
      assert IsRecord(w, MetaOf(k));
    }
    forall p | IsRecord(u, p) && u.names[p].ino in u.owner
      ensures p == MetaOf(u.owner[u.names[p].ino])
    {
      assert IsRecord(w, p);
    }
    forall id | id in u.threads
      ensures ThreadOk(u, u.threads[id])
    {
      assert ThreadOk(w, w.threads[id]);
    }
  }

  lemma DataChangeKeeps(w: World, k: Key, u: World)
    requires Inv(w) && DataChange(w, k, u)
    ensures Inv(u)
  {
    forall k': Key | IsRecord(u, MetaOf(k'))
      ensures Owns(u, u.names[MetaOf(k')].ino, k')
    {
      MetaPaths(k, k');
      assert IsRecord(w, MetaOf(k'));
    }
    forall p | IsRecord(u, p) && u.names[p].ino in u.owner
      ensures p == MetaOf(u.owner[u.names[p].ino])
    {
      assert IsRecord(w, p);
    }
    forall id | id in u.threads
      ensures ThreadOk(u, u.threads[id])
    {
      assert ThreadOk(w, w.threads[id]);
    }
  }

  lemma StartKeeps(w: World, id: nat, job: Job, u: World)
    requires Inv(w) && Starts(w, id, job, u)
    ensures Inv(u)
  {
    forall i | i in u.owner
      ensures i in u.data && RecordText(u.owner[i], u.data[i], u.asked)
    {
      TextMonotone(w.owner[i], w.data[i], w.asked, u.asked);
    }
    NamesAsBefore(w, u);
    forall other | other in u.threads
      ensures ThreadOk(u, u.threads[other])
    {
      if other != id {
        assert ThreadOk(w, w.threads[other]);
      }
    }
  }

  lemma NamesAsBefore(w: World, u: World)
    requires NamesOk(w) && u.names == w.names && u.owner == w.owner
    ensures NamesOk(u)
  {
    forall k: Key | IsRecord(u, MetaOf(k))
      ensures Owns(u, u.names[MetaOf(k)].ino, k)
    {
      assert IsRecord(w, MetaOf(k));
    }
    forall p | IsRecord(u, p) && u.names[p].ino in u.owner
      ensures p == MetaOf(u.owner[u.names[p].ino])
    {
      assert IsRecord(w, p);
    }
  }

  lemma OpensOldKeeps(w: World, id: nat, th: Thread, u: World)
    requires Inv(w) && id in w.threads && w.threads[id] == th && OpensOld(w, id, th, u)
    ensures Inv(u)
  {
    assert ThreadOk(w, th);
    var k := OldKey(th.job);
    assert IsRecord(w, MetaOf(k)) ==> Owns(w, w.names[MetaOf(k)].ino, k);
    ThreadMoved(w, id, Found(w, MetaOf(k)));
  }

  lemma ReadsOldKeeps(w: World, id: nat, th: Thread, u: World)
    requires Inv(w) && id in w.threads && w.threads[id] == th && ReadsOld(w, id, th, u)
    ensures Inv(u)
  {
    assert ThreadOk(w, th);
    var v := Decode(w.data[th.pc.ino]);
    if v.Some? {
      ReadableIsTrue(OldKey(th.job), w.data[th.pc.ino], w.asked);
    }
    ThreadMoved(w, id, Loaded(th.job, v));
  }

  lemma MakesOneKeeps(w: World, dir: Path, th: Thread, u: World)
    requires Inv(w) && MakesOne(w, dir, th, u)
    ensures Inv(u)
  {
    NamesChanged(w, u.names);
  }

  lemma FinishesMakingKeeps(w: World, id: nat, ok: bool, th: Thread, u: World)
    requires Inv(w) && id in w.threads && w.threads[id] == th && FinishesMaking(w, id, ok, th, u)
    ensures Inv(u)
  {
    assert ThreadOk(w, th);
    NamesChanged(w, u.names);
    ThreadMoved(w.(names := u.names), id, if ok then Placed(th.pc.rec) else Done(false));
  }

  lemma RemovesOldKeeps(w: World, id: nat, th: Thread, u: World)
    requires Inv(w) && id in w.threads && w.threads[id] == th && RemovesOld(w, id, th, u)
    ensures Inv(u)
  {
    assert ThreadOk(w, th);
    NamesChanged(w, u.names);
    ThreadMoved(w.(names := u.names), id, Placed(th.pc.rec));
  }

  lemma OpensRecordKeeps(w: World, id: nat, ino: nat, th: Thread, u: World)
    requires Inv(w) && id in w.threads && w.threads[id] == th && OpensRecord(w, id, ino, th, u)
    ensures Inv(u)
  {
    assert ThreadOk(w, th);
    var k := th.job.key;
    if IsRecord(w, MetaOf(k)) {
      ThreadMoved(w, id, Writing(th.pc.rec, w.names[MetaOf(k)].ino));
    } else if MetaOf(k) !in w.names && IsDirectory(w, Home(k)) {
      NewRecordFileKeeps(w, id, ino, th, u);
    } else {
      ThreadMoved(w, id, Done(false));
    }
  }

  lemma NewRecordFileKeeps(w: World, id: nat, ino: nat, th: Thread, u: World)
    requires Inv(w) && id in w.threads && w.threads[id] == th && th.pc.Placed? && MetaOf(th.job.key) !in w.names
    requires NewRecordFile(w, id, ino, th, u)
    ensures Inv(u)
  {
    NewNamesOk(w, id, ino, th, u);
    assert ThreadOk(w, th);
    forall other | other in u.threads
      ensures ThreadOk(u, u.threads[other])
    {
      if other != id {
        assert ThreadOk(w, w.threads[other]);
      }
    }
  }

  lemma NewNamesOk(w: World, id: nat, ino: nat, th: Thread, u: World)
    requires NamesOk(w) && id in w.threads && th.pc.Placed? && MetaOf(th.job.key) !in w.names
    requires NewRecordFile(w, id, ino, th, u)
    ensures NamesOk(u)
  {
    var k := th.job.key;
    forall k': Key | IsRecord(u, MetaOf(k'))
      ensures Owns(u, u.names[MetaOf(k')].ino, k')
    {
      MetaPaths(k, k');
      if k' != k {
        assert IsRecord(w, MetaOf(k'));
      }
    }
    forall p | IsRecord(u, p) && u.names[p].ino in u.owner
      ensures p == MetaOf(u.owner[u.names[p].ino])
    {
      if p != MetaOf(k) {
        assert IsRecord(w, p);
      }
    }
  }

  lemma WritesRecordKeeps(w: World, id: nat, th: Thread, u: World)
    requires Inv(w) && id in w.threads && w.threads[id] == th && WritesRecord(w, id, th, u)
    ensures Inv(u)
  {
    assert ThreadOk(w, th);
    WriteKeepsText(th.job.key, w.data[th.pc.ino], w.asked, th.pc.rec);
    NamesAsBefore(w, u);
    forall other | other in u.threads
      ensures ThreadOk(u, u.threads[other])
    {
      assert ThreadOk(w, w.threads[other]);
    }
  }

  lemma RemovesOneKeeps(w: World, entry: Path, th: Thread, u: World)
    requires Inv(w) && RemovesOne(w, entry, th, u)
    ensures Inv(u)
  {
    NamesChanged(w, u.names);
  }

  lemma ReadsGroupKeeps(w: World, id: nat, dirs: seq<string>, th: Thread, u: World)
    requires Inv(w) && id in w.threads && w.threads[id] == th && ReadsGroup(w, id, dirs, th, u)
    ensures Inv(u)
  {
    assert ThreadOk(w, th);
    assert [] + dirs == dirs;
    ThreadMoved(w, id, u.threads[id].pc);
  }

  lemma OpensListedKeeps(w: World, id: nat, th: Thread, u: World)
    requires Inv(w) && id in w.threads && w.threads[id] == th && OpensListed(w, id, th, u)
    ensures Inv(u)
  {
    assert ThreadOk(w, th);
    var k := Key(th.job.key.vg, th.pc.todo[0]);
    assert IsRecord(w, MetaOf(k)) ==> Owns(w, w.names[MetaOf(k)].ino, k);
    assert th.pc.todo == [th.pc.todo[0]] + th.pc.todo[1..];
    ThreadMoved(w, id, FoundListed(w, th.job.key.vg, th.pc));
  }

  lemma ReadsListedKeeps(w: World, id: nat, th: Thread, u: World)
    requires Inv(w) && id in w.threads && w.threads[id] == th && ReadsListed(w, id, th, u)
    ensures Inv(u)
  {
    assert ThreadOk(w, th);
    var v := Decode(w.data[th.pc.ino]);
    if v.Some? {
      ReadableIsTrue(Key(th.job.key.vg, th.pc.dir), w.data[th.pc.ino], w.asked);
      assert th.pc.seen + ([th.pc.dir] + th.pc.todo) == th.pc.seen + [th.pc.dir] + th.pc.todo;
      OneMoreTrue(th.job.key.vg, th.pc.seen, th.pc.vols, w.asked, th.pc.dir, v.value);
    }
    ThreadMoved(w, id, LoadedListed(th.pc, v));
  }

  lemma OneMoreTrue(vg: string, seen: seq<string>, vols: seq<Vol>, asked: set<UInt64>, dir: string, v: Vol)
    requires TrueRecords(vg, seen, vols, asked) && TrueRecord(Key(vg, dir), v, asked)
    ensures TrueRecords(vg, seen + [dir], vols + [v], asked)
  {
  }

  lemma EndsListingKeeps(w: World, id: nat, th: Thread, u: World)
    requires Inv(w) && id in w.threads && w.threads[id] == th && EndsListing(w, id, th, u)
    ensures Inv(u)
  {
    assert ThreadOk(w, th);
    assert th.pc.seen + [] == th.pc.seen;
    ThreadMoved(w, id, Listed(th.pc.dirs, th.pc.vols));
  }

  lemma CrashKeeps(w: World, id: nat, u: World)
    requires Inv(w) && u == w.(threads := w.threads - {id})
    ensures Inv(u)
  {
    NamesAsBefore(w, u);
    forall other | other in u.threads
      ensures ThreadOk(u, u.threads[other])
    {
      assert ThreadOk(w, w.threads[other]);
    }
  }

  lemma RemoveDoneKeeps(w: World, id: nat, ok: bool)
    requires Inv(w) && id in w.threads
    ensures Inv(With(w, id, Done(ok)))
  {
    assert ThreadOk(w, w.threads[id]);
    ThreadMoved(w, id, Done(ok));
  }

  lemma CallKeeps(w: World, a: Action, th: Thread, u: World)
    requires Inv(w) && !a.PodWrites? && a.id in w.threads && th == w.threads[a.id] && Calls(w, a, th, u)
    ensures Inv(u)
  {
    hide Inv, OpensOld, ReadsOld, MakesOne, FinishesMaking, DataChange, RemovesOld, OpensRecord, WritesRecord, RemovesOne;
    hide ReadsGroup, OpensListed, ReadsListed, EndsListing;
    match a
    case OpenOld(id) => OpensOldKeeps(w, id, th, u);
    case ReadOld(id) => ReadsOldKeeps(w, id, th, u);
    case MkdirOne(_, dir) => MakesOneKeeps(w, dir, th, u);
    case MkdirDone(id, ok) => FinishesMakingKeeps(w, id, ok, th, u);
    case CopyData(_) => DataChangeKeeps(w, th.job.key, u);
    case RemoveOld(id) => RemovesOldKeeps(w, id, th, u);
    case OpenRecord(id, ino) => OpensRecordKeeps(w, id, ino, th, u);
    case WriteRecord(id) => WritesRecordKeeps(w, id, th, u);
    case RemoveOne(_, entry) => RemovesOneKeeps(w, entry, th, u);
    case RemoveDone(id, ok) => RemoveDoneKeeps(w, id, ok);
    case ReadGroup(id, dirs) => ReadsGroupKeeps(w, id, dirs, th, u);
    case OpenListed(id) => OpensListedKeeps(w, id, th, u);
    case ReadListed(id) => ReadsListedKeeps(w, id, th, u);
    case ListDone(id) => EndsListingKeeps(w, id, th, u);
    case _ =>
  }

  /** Every step of every thread, every crash and every pod's write keeps the invariant. */
  lemma StepKeeps(w: World, a: Action, u: World)
    requires Inv(w) && Step(w, a, u)
    ensures Inv(u)
  {
    hide Inv, Starts, DataChange, Calls;
    if a.Start? {
      StartKeeps(w, a.id, a.job, u);
    } else if a.Crash? {
      CrashKeeps(w, a.id, u);
    } else if a.PodWrites? {
      DataChangeKeeps(w, a.key, u);
    } else {
      CallKeeps(w, a, w.threads[a.id], u);
    }
  }
}
