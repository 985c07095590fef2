/**
 * The package cache: processes that map a cached package or build it under a
 * lock file, interleaved step by step, any of which may crash anywhere.
 *
 * A file name leads to an inode, and a mapping keeps its inode, so that a
 * rename or a removal leaves what others have mapped.
 */
module PackageCache {
  import opened Prelude

  type Pid = nat
  type Header = nat
  type Inode = nat

  /** One build's output, for the header it was built for. */
  datatype Build = Build(header: Header, number: nat)

  datatype Content = Torn | Whole(build: Build)

  /** What a caller got: a mapped file, or bytes of its own. */
  datatype Package = OnDisk(inode: Inode) | InMemory(build: Build)

  /** Where a process is in `load_or_build`. */
  datatype Pc =
    | Idle
    | Looking(header: Header)
    | Mapped(header: Header, inode: Inode)
    | Missed(header: Header)
    | Waiting(header: Header)
    | Clearing(header: Header)
    | Building(header: Header)
    | Built(header: Header, build: Build)
    | Writing(header: Header, build: Build, inode: Inode)
    | Written(header: Header, build: Build, inode: Inode)
    | Dropping(header: Header, build: Build)
    | Pruning(header: Header, build: Build)
    | Unlocking(header: Header, result: Option<Build>)
    | Importing(header: Header, build: Build)
    | Alone(header: Header)
    | Returned(header: Header, package: Package)
    | Failed

  /** The cache directory. A lock remembers who created it, a partial file is
      named by its header and its writer's process id. */
  datatype Files = Files(
    paths: map<Header, Inode>,
    locks: map<Header, Pid>,
    partials: map<(Header, Pid), Inode>,
    disk: map<Inode, Content>)

  /** `robbed` says that a lock was removed as stale while its creator was still
      between creating and removing it; `orphaned` that a process crashed there, or
      could not remove its lock. */
  datatype World = World(pcs: map<Pid, Pc>, files: Files, builds: nat, robbed: bool, orphaned: bool)

  function PcOf(w: World, p: Pid): Pc {
    if p in w.pcs then w.pcs[p] else Idle
  }

  /** The lock a process is between creating and removing. */
  function LockOf(pc: Pc): Option<Header> {
    match pc
    case Building(h) => Some(h)
    case Built(h, _) => Some(h)
    case Writing(h, _, _) => Some(h)
    case Written(h, _, _) => Some(h)
    case Dropping(h, _) => Some(h)
    case Pruning(h, _) => Some(h)
    case Unlocking(h, _) => Some(h)
    case _ => None
  }

  predicate Holds(w: World, p: Pid, h: Header) {
    LockOf(PcOf(w, p)) == Some(h)
  }

  /** `Go(ok)` takes the step a process is at; `ok` says whether the call it
      makes succeeds when it may do either. The other actions are the choices
      with a value: what to load, the inode of a new file, a file to prune,
      whether a lock looks stale; and what the system does to a process. */
  datatype Action =
    | Load(header: Header)
    | Go(ok: bool)
    | NoCache
    | Create(inode: Inode)
    | Prune(header: Header)
    | Stale
    | Exit
    | Crash

  /** What a step does to the cache directory. */
  datatype Effect =
    | Nothing
    | Lock(header: Header)
    | Unlock(header: Header)
    | Open(header: Header, inode: Inode)
    | Fill(inode: Inode, build: Build)
    | Publish(header: Header, inode: Inode)
    | Drop(header: Header)
    | Unlink(header: Header)

  function Effected(files: Files, p: Pid, effect: Effect): Files {
    match effect
    case Nothing => files
    case Lock(h) => files.(locks := files.locks[h := p])
    case Unlock(h) => files.(locks := files.locks - {h})
    case Open(h, i) => files.(partials := files.partials[(h, p) := i], disk := files.disk[i := Torn])
    case Fill(i, b) => files.(disk := files.disk[i := Whole(b)])
    case Publish(h, i) => files.(paths := files.paths[h := i], partials := files.partials - {(h, p)})
    case Drop(h) => files.(partials := files.partials - {(h, p)})
    case Unlink(h) => files.(paths := files.paths - {h})
  }

  /** Whether the header check lets the content through. */
  predicate Importable(files: Files, inode: Inode, h: Header) {
    inode in files.disk && files.disk[inode].Whole? && files.disk[inode].build.header == h
  }

  /** Where the step takes a process, and what it does to the directory. */
  datatype Move = Move(pc: Pc, effect: Effect)

  /** The move of a process at `pc` whose next call comes out as `ok`; `number`
      is what the next build is called. */
  function Advance(pc: Pc, files: Files, number: nat, ok: bool): Option<Move> {
    match pc
    case Looking(h) => Some(Move(if ok && h in files.paths then Mapped(h, files.paths[h]) else Missed(h), Nothing))
    case Mapped(h, i) =>
      Some(Move(if ok && Importable(files, i, h) then Returned(h, OnDisk(i)) else Missed(h), Nothing))
    case Missed(h) => Some(if h in files.locks then Move(Waiting(h), Nothing) else Move(Building(h), Lock(h)))
    case Waiting(h) => Some(Move(Looking(h), Nothing))
    case Clearing(h) => Some(Move(Looking(h), if ok then Unlock(h) else Nothing))
    case Building(h) => Some(Move(if ok then Built(h, Build(h, number)) else Unlocking(h, None), Nothing))
    case Built(h, b) => if ok then None else Some(Move(Pruning(h, b), Nothing))
    case Writing(h, b, i) => Some(if ok then Move(Written(h, b, i), Fill(i, b)) else Move(Pruning(h, b), Nothing))
    case Written(h, b, i) => Some(if ok then Move(Pruning(h, b), Publish(h, i)) else Move(Dropping(h, b), Nothing))
    case Dropping(h, b) => Some(Move(Pruning(h, b), if ok then Drop(h) else Nothing))
    case Pruning(h, b) => Some(Move(Unlocking(h, Some(b)), Nothing))
    case Unlocking(h, None) => Some(Move(Failed, if ok then Unlock(h) else Nothing))
    case Unlocking(h, Some(b)) => Some(Move(Importing(h, b), if ok then Unlock(h) else Nothing))
    case Importing(h, b) => Some(Move(if ok && b.header == h then Returned(h, InMemory(b)) else Failed, Nothing))
    case Alone(h) => Some(Move(if ok then Importing(h, Build(h, number)) else Failed, Nothing))
    case Idle => None
    case Returned(_, _) => None
    case Failed => None
  }

  /** The move of process `p` at `pc` for `action`; `None` when it has none. */
  function MoveOf(p: Pid, pc: Pc, files: Files, number: nat, action: Action): Option<Move> {
    match action
    case Go(ok) => Advance(pc, files, number, ok)
    case Load(h) => if pc.Idle? then Some(Move(Looking(h), Nothing)) else None
    case NoCache => if pc.Missed? then Some(Move(Alone(pc.header), Nothing)) else None
    case Stale => if pc.Waiting? then Some(Move(Clearing(pc.header), Nothing)) else None
    case Create(file) =>
      if pc.Built? && file !in files.disk then
        var name := (pc.header, p);
        var i := if name in files.partials then files.partials[name] else file;
        Some(Move(Writing(pc.header, pc.build, i), Open(pc.header, i)))
      else None
    case Prune(h) => if pc.Pruning? && h != pc.header then Some(Move(pc, Unlink(h))) else None
    case Exit => if pc.Returned? || pc.Failed? then Some(Move(Idle, Nothing)) else None
    case Crash => Some(Move(Idle, Nothing))
  }

  function MoveIn(w: World, p: Pid, action: Action): Option<Move> {
    MoveOf(p, PcOf(w, p), w.files, w.builds, action)
  }

  /** `p` clears a lock whose creator is still at work under it. */
  predicate Robs(w: World, p: Pid) {
    var pc := PcOf(w, p);
    pc.Clearing? && pc.header in w.files.locks && Holds(w, w.files.locks[pc.header], pc.header)
  }

  /** A lock is left behind: its creator crashes at work or fails to remove it. */
  predicate Orphans(pc: Pc, action: Action) {
    LockOf(pc).Some? && (action.Crash? || (action == Go(false) && pc.Unlocking?))
  }

  predicate Compiles(pc: Pc, action: Action) {
    action == Go(true) && (pc.Building? || pc.Alone?)
  }

  /** The world after `p` takes `action`; `None` when it cannot. */
  function Step(w: World, p: Pid, action: Action): Option<World> {
    var pc := PcOf(w, p);
    match MoveIn(w, p, action)
    case None => None
    case Some(Move(to, effect)) =>
      Some(World(w.pcs[p := to], Effected(w.files, p, effect),
                 if Compiles(pc, action) then w.builds + 1 else w.builds,
                 w.robbed || (action == Go(true) && Robs(w, p)),
                 w.orphaned || Orphans(pc, action)))
  }

  ghost predicate Steps(w: World, p: Pid, action: Action, next: World) {
    Step(w, p, action) == Some(next)
  }

  /** An interleaving: who acts, what it does, and the worlds between. */
  ghost predicate Run(worlds: seq<World>, actors: seq<Pid>, actions: seq<Action>) {
    && |worlds| == |actors| + 1 && |actors| == |actions|
    && forall k | 0 <= k < |actors| :: Steps(worlds[k], actors[k], actions[k], worlds[k + 1])
  }

  // ------------------------------------------------------- what always holds

  ghost predicate Own(w: World, h: Header, build: Build) {
    build.header == h && build.number < w.builds
  }

  /** A file the writer of no partial can touch. */
  ghost predicate Published(files: Files, inode: Inode) {
    && inode in files.disk
    && forall name <- files.partials :: files.partials[name] != inode
  }

  /** A partial file is its writer's alone. */
  ghost predicate Apart(files: Files, name: (Header, Pid)) {
    && name in files.partials && files.partials[name] in files.disk
    && forall other <- files.partials :: other != name ==> files.partials[other] != files.partials[name]
  }

  /** The partial file `p` writes for `h` is `inode`. */
  ghost predicate Mine(files: Files, h: Header, p: Pid, inode: Inode) {
    (h, p) in files.partials && files.partials[(h, p)] == inode
  }

  /** What a process's place says of what it has in hand. */
  ghost predicate InHand(w: World, p: Pid) {
    match PcOf(w, p)
    case Mapped(h, i) => Published(w.files, i)
    case Built(h, b) => Own(w, h, b)
    case Writing(h, b, i) => Own(w, h, b) && Mine(w.files, h, p, i)
    case Written(h, b, i) =>
      && Own(w, h, b) && Mine(w.files, h, p, i)
      && i in w.files.disk && w.files.disk[i] == Whole(b)
    case Dropping(h, b) => Own(w, h, b)
    case Pruning(h, b) => Own(w, h, b)
    case Unlocking(h, result) => result.Some? ==> Own(w, h, result.value)
    case Importing(h, b) => Own(w, h, b)
    case Returned(h, OnDisk(i)) => Published(w.files, i) && Importable(w.files, i, h)
    case Returned(h, InMemory(b)) => Own(w, h, b)
    case _ => true
  }

  ghost predicate Shared(files: Files) {
    && (forall h <- files.paths :: Published(files, files.paths[h]))
    && (forall name <- files.partials :: Apart(files, name))
  }

  /** Nobody writes what a path leads to or what a process has mapped; whatever
      the package files hold. */
  ghost predicate Sound(w: World) {
    Shared(w.files) && forall p :: InHand(w, p)
  }

  /** A package path is absent or leads to one build's complete bytes. */
  ghost predicate Complete(w: World) {
    forall h <- w.files.paths ::
      Importable(w.files, w.files.paths[h], h) && Own(w, h, w.files.disk[w.files.paths[h]].build)
  }

  /** What a sound process's effect may touch. */
  ghost predicate Allowed(files: Files, p: Pid, effect: Effect) {
    match effect
    case Open(h, i) => i !in files.disk || Mine(files, h, p, i)
    case Fill(i, b) => Mine(files, b.header, p, i)
    case Publish(h, i) => Mine(files, h, p, i) && Importable(files, i, h)
    case _ => true
  }

  lemma {:induction false} EffectsAreAllowed(w: World, p: Pid, action: Action)
    requires InHand(w, p) && MoveIn(w, p, action).Some?
    ensures Allowed(w.files, p, MoveIn(w, p, action).value.effect)
  {
  }

  lemma {:induction false} EffectsKeepPublished(files: Files, p: Pid, effect: Effect, inode: Inode)
    requires Allowed(files, p, effect) && Published(files, inode)
    ensures var after := Effected(files, p, effect);
      Published(after, inode) && after.disk[inode] == files.disk[inode]
  {
  }

  lemma {:induction false} EffectsKeepApart(files: Files, p: Pid, effect: Effect, name: (Header, Pid))
    requires Shared(files) && Allowed(files, p, effect) && name in Effected(files, p, effect).partials
    ensures Apart(Effected(files, p, effect), name)
  {
  }

  lemma {:induction false} PathsStayPublished(files: Files, p: Pid, effect: Effect, h: Header)
    requires Shared(files) && Allowed(files, p, effect) && h in Effected(files, p, effect).paths
    ensures Published(Effected(files, p, effect), Effected(files, p, effect).paths[h])
  {
  }

  lemma {:induction false} OthersStayInHand(w: World, p: Pid, action: Action, next: World, q: Pid)
    requires Shared(w.files) && InHand(w, p) && InHand(w, q) && q != p && Steps(w, p, action, next)
    ensures InHand(next, q)
  {
  }

  lemma {:induction false} OwnStaysInHand(w: World, p: Pid, action: Action, next: World)
    requires Shared(w.files) && InHand(w, p) && Steps(w, p, action, next)
    ensures InHand(next, p)
  {
  }

  lemma {:induction false} StepStaysSound(w: World, p: Pid, action: Action, next: World)
    requires Sound(w) && Steps(w, p, action, next)
    ensures Sound(next)
  {
    assert InHand(w, p);
    EffectsAreAllowed(w, p, action);
    var effect := MoveIn(w, p, action).value.effect;
    forall h <- next.files.paths ensures Published(next.files, next.files.paths[h]) {
      PathsStayPublished(w.files, p, effect, h);
    }
    forall name <- next.files.partials ensures Apart(next.files, name) {
      EffectsKeepApart(w.files, p, effect, name);
    }
    OwnStaysInHand(w, p, action, next);
    forall q ensures InHand(next, q) {
      if q != p {
        OthersStayInHand(w, p, action, next, q);
      }
    }
  }

  lemma {:induction false} PathStaysComplete(w: World, p: Pid, action: Action, next: World, h: Header)
    requires Sound(w) && Complete(w) && Steps(w, p, action, next) && h in next.files.paths
    ensures Importable(next.files, next.files.paths[h], h)
    ensures Own(next, h, next.files.disk[next.files.paths[h]].build)
  {
    assert InHand(w, p);
    EffectsAreAllowed(w, p, action);
    var effect := MoveIn(w, p, action).value.effect;
    if h in w.files.paths {
      EffectsKeepPublished(w.files, p, effect, w.files.paths[h]);
    }
  }

  // ------------------------------------------------------------ every run

  /** What a process returned is, and stays, for the header it asked for. */
  ghost predicate CarriesHeader(w: World, p: Pid) {
    match PcOf(w, p)
    case Returned(h, OnDisk(i)) => Importable(w.files, i, h)
    case Returned(h, InMemory(b)) => b.header == h
    case _ => true
  }

  /** In every interleaving, with crashes and stale-lock removal, and whatever
      the cache held: each package returned carries its caller's header. */
  lemma {:induction false} ReturnedCarriesHeader(worlds: seq<World>, actors: seq<Pid>, actions: seq<Action>, k: nat)
    requires Run(worlds, actors, actions) && Sound(worlds[0]) && k <= |actors|
    ensures Sound(worlds[k])
    ensures forall p :: CarriesHeader(worlds[k], p)
    decreases k
  {
    if k > 0 {
      ReturnedCarriesHeader(worlds, actors, actions, k - 1);
      assert Steps(worlds[k - 1], actors[k - 1], actions[k - 1], worlds[k - 1 + 1]);
      StepStaysSound(worlds[k - 1], actors[k - 1], actions[k - 1], worlds[k]);
    }
    forall p ensures CarriesHeader(worlds[k], p) {
      assert InHand(worlds[k], p);
    }
  }

  /** A package path is always absent or holds one build's complete bytes, for
      the header that names it. */
  lemma {:induction false} CachedIsComplete(worlds: seq<World>, actors: seq<Pid>, actions: seq<Action>, k: nat)
    requires Run(worlds, actors, actions) && Sound(worlds[0]) && Complete(worlds[0]) && k <= |actors|
    ensures Complete(worlds[k])
    decreases k
  {
    if k > 0 {
      var w, next := worlds[k - 1], worlds[k - 1 + 1];
      CachedIsComplete(worlds, actors, actions, k - 1);
      ReturnedCarriesHeader(worlds, actors, actions, k - 1);
      assert Steps(w, actors[k - 1], actions[k - 1], next);
      forall h <- next.files.paths
        ensures Importable(next.files, next.files.paths[h], h)
                && Own(next, h, next.files.disk[next.files.paths[h]].build)
      {
        PathStaysComplete(w, actors[k - 1], actions[k - 1], next, h);
      }
    }
  }

  lemma {:induction false} PublishedNeverChanges(worlds: seq<World>, actors: seq<Pid>, actions: seq<Action>,
                                                 i: Inode, j: nat, k: nat)
    requires Run(worlds, actors, actions) && Sound(worlds[0]) && j <= k <= |actors|
    requires Published(worlds[j].files, i)
    ensures Published(worlds[k].files, i) && worlds[k].files.disk[i] == worlds[j].files.disk[i]
    decreases k
  {
    if j < k {
      var w, p, action := worlds[k - 1], actors[k - 1], actions[k - 1];
      PublishedNeverChanges(worlds, actors, actions, i, j, k - 1);
      ReturnedCarriesHeader(worlds, actors, actions, k - 1);
      assert Steps(w, p, action, worlds[k - 1 + 1]);
      assert InHand(w, p);
      EffectsAreAllowed(w, p, action);
      EffectsKeepPublished(w.files, p, MoveIn(w, p, action).value.effect, i);
    }
  }

  /** What a process has mapped never changes under it, though others replace
      and prune the file it came from. */
  lemma {:induction false} MappingNeverChanges(worlds: seq<World>, actors: seq<Pid>, actions: seq<Action>,
                                               p: Pid, h: Header, i: Inode, j: nat, k: nat)
    requires Run(worlds, actors, actions) && Sound(worlds[0]) && j <= k <= |actors|
    requires PcOf(worlds[j], p) in {Mapped(h, i), Returned(h, OnDisk(i))}
    ensures i in worlds[j].files.disk && i in worlds[k].files.disk
    ensures worlds[k].files.disk[i] == worlds[j].files.disk[i]
  {
    ReturnedCarriesHeader(worlds, actors, actions, j);
    assert InHand(worlds[j], p);
    PublishedNeverChanges(worlds, actors, actions, i, j, k);
  }

  lemma {:induction false} Unmoved(worlds: seq<World>, actors: seq<Pid>, actions: seq<Action>, p: Pid, j: nat, k: nat)
    requires Run(worlds, actors, actions) && j <= k <= |actors|
    requires forall m | j <= m < k :: actors[m] != p
    ensures PcOf(worlds[k], p) == PcOf(worlds[j], p)
    decreases k
  {
    if j < k {
      Unmoved(worlds, actors, actions, p, j, k - 1);
      assert Steps(worlds[k - 1], actors[k - 1], actions[k - 1], worlds[k - 1 + 1]);
    }
  }

  /** A process that finds the path there and can open it returns that package
      without building, whatever others do before it has read it. */
  lemma {:induction false} OpenedIsReturned(worlds: seq<World>, actors: seq<Pid>, actions: seq<Action>,
                                            p: Pid, h: Header, j: nat, k: nat)
    requires Run(worlds, actors, actions) && Sound(worlds[0]) && Complete(worlds[0])
    requires j < k < |actors| && actors[j] == actors[k] == p && actions[j] == actions[k] == Go(true)
    requires forall m | j < m < k :: actors[m] != p
    requires PcOf(worlds[j], p) == Looking(h) && h in worlds[j].files.paths
    ensures PcOf(worlds[k + 1], p) == Returned(h, OnDisk(worlds[j].files.paths[h]))
  {
    var i := worlds[j].files.paths[h];
    assert Steps(worlds[j], actors[j], actions[j], worlds[j + 1]);
    assert Steps(worlds[k], actors[k], actions[k], worlds[k + 1]);
    CachedIsComplete(worlds, actors, actions, j);
    ReturnedCarriesHeader(worlds, actors, actions, j);
    PublishedNeverChanges(worlds, actors, actions, i, j, k);
    Unmoved(worlds, actors, actions, p, j + 1, k);
  }

  /** When a process, now elsewhere than it began, last moved. */
  lemma {:induction false} LastMove(worlds: seq<World>, actors: seq<Pid>, actions: seq<Action>, p: Pid, k: nat)
    returns (j: nat)
    requires Run(worlds, actors, actions) && k <= |actors| && PcOf(worlds[k], p) != PcOf(worlds[0], p)
    ensures j < k && actors[j] == p && forall m | j < m < k :: actors[m] != p
    ensures PcOf(worlds[j + 1], p) == PcOf(worlds[k], p)
    decreases k
  {
    if actors[k - 1] == p {
      j := k - 1;
    } else {
      assert Steps(worlds[k - 1], actors[k - 1], actions[k - 1], worlds[k - 1 + 1]);
      j := LastMove(worlds, actors, actions, p, k - 1);
    }
  }

  /** What a process has mapped but not read yet would be let through. */
  lemma {:induction false} MappedIsImportable(worlds: seq<World>, actors: seq<Pid>, actions: seq<Action>, p: Pid,
                                              h: Header, i: Inode, k: nat)
    requires Run(worlds, actors, actions) && Sound(worlds[0]) && Complete(worlds[0]) && k <= |actors|
    requires PcOf(worlds[0], p) == Idle && PcOf(worlds[k], p) == Mapped(h, i)
    ensures Importable(worlds[k].files, i, h)
  {
    var j := LastMove(worlds, actors, actions, p, k);
    assert Steps(worlds[j], actors[j], actions[j], worlds[j + 1]);
    CachedIsComplete(worlds, actors, actions, j);
    ReturnedCarriesHeader(worlds, actors, actions, j);
    PublishedNeverChanges(worlds, actors, actions, i, j, k);
  }

  /** Taking `action`, `p` finds the path absent, or fails to open it or to read
      what it opened. */
  ghost predicate LookFails(w: World, p: Pid, h: Header, action: Action) {
    match PcOf(w, p)
    case Looking(g) => g == h && (h !in w.files.paths || action == Go(false))
    case Mapped(g, _) => g == h && action == Go(false)
    case _ => false
  }

  lemma {:induction false} TakesLockMissed(w: World, p: Pid, action: Action, next: World, h: Header)
    requires Steps(w, p, action, next) && !Holds(w, p, h) && Holds(next, p, h)
    ensures PcOf(w, p) == Missed(h)
  {
  }

  lemma {:induction false} MissesByLooking(w: World, p: Pid, action: Action, next: World, h: Header)
    requires Steps(w, p, action, next) && PcOf(next, p) == Missed(h)
    requires PcOf(w, p).Mapped? ==> Importable(w.files, PcOf(w, p).inode, PcOf(w, p).header)
    ensures LookFails(w, p, h, action)
  {
  }

  /** A process that takes the lock had failed when it last looked. */
  lemma {:induction false} LockTakenAfterMiss(worlds: seq<World>, actors: seq<Pid>, actions: seq<Action>, p: Pid,
                                              h: Header, k: nat)
    returns (j: nat)
    requires Run(worlds, actors, actions) && Sound(worlds[0]) && Complete(worlds[0]) && k < |actors|
    requires PcOf(worlds[0], p) == Idle && !Holds(worlds[k], p, h) && Holds(worlds[k + 1], p, h)
    ensures j < k && actors[j] == p && forall m | j < m < k :: actors[m] != p
    ensures LookFails(worlds[j], p, h, actions[j])
  {
    assert Steps(worlds[k], actors[k], actions[k], worlds[k + 1]);
    assert actors[k] == p;
    TakesLockMissed(worlds[k], p, actions[k], worlds[k + 1], h);
    j := LastMove(worlds, actors, actions, p, k);
    assert Steps(worlds[j], actors[j], actions[j], worlds[j + 1]);
    if PcOf(worlds[j], p).Mapped? {
      MappedIsImportable(worlds, actors, actions, p, PcOf(worlds[j], p).header, PcOf(worlds[j], p).inode, j);
    }
    MissesByLooking(worlds[j], p, actions[j], worlds[j + 1], h);
  }

  // ------------------------------------------------------------ the lock

  /** Until a lock is cleared from under its creator, whoever is at work under a
      lock created the one there is. */
  ghost predicate Guarded(w: World) {
    !w.robbed ==> forall p, h :: Holds(w, p, h) ==> h in w.files.locks && w.files.locks[h] == p
  }

  /** And until one leaves its lock behind, a lock's creator is at work under it. */
  ghost predicate Tended(w: World) {
    !w.robbed && !w.orphaned ==> forall h <- w.files.locks :: Holds(w, w.files.locks[h], h)
  }

  /** A process starts to hold a lock by creating it, and unless it leaves it
      behind stops by removing it. */
  lemma {:induction false} LockMoves(p: Pid, pc: Pc, files: Files, number: nat, action: Action, h: Header)
    requires MoveOf(p, pc, files, number, action).Some?
    ensures var Move(to, effect) := MoveOf(p, pc, files, number, action).value;
      && (LockOf(pc) == Some(h) != LockOf(to) ==> Orphans(pc, action) || effect == Unlock(h))
      && (LockOf(pc) != Some(h) == LockOf(to) ==> effect == Lock(h))
      && (effect == Lock(h) ==> h !in files.locks && LockOf(to) == Some(h))
      && (effect == Unlock(h) ==>
            action == Go(true) && (pc == Clearing(h) || LockOf(pc) == Some(h)) && LockOf(to) != Some(h))
  {
  }

  lemma {:induction false} LocksAfter(files: Files, p: Pid, effect: Effect, h: Header)
    ensures var after := Effected(files, p, effect).locks;
      && (effect == Lock(h) ==> h in after && after[h] == p)
      && (effect == Unlock(h) ==> h !in after)
      && (effect != Lock(h) && effect != Unlock(h) ==>
            (h in after <==> h in files.locks) && (h in after ==> after[h] == files.locks[h]))
  {
  }

  lemma {:induction false} HolderStaysGuarded(w: World, p: Pid, action: Action, next: World, q: Pid, h: Header)
    requires Guarded(w) && Steps(w, p, action, next) && !next.robbed && Holds(next, q, h)
    ensures h in next.files.locks && next.files.locks[h] == q
  {
    var Move(to, effect) := MoveIn(w, p, action).value;
    LockMoves(p, PcOf(w, p), w.files, w.builds, action, h);
    LocksAfter(w.files, p, effect, h);
    assert PcOf(next, q) == if q == p then to else PcOf(w, q);
    if Holds(w, q, h) {
      assert h in w.files.locks && w.files.locks[h] == q;
      assert effect == Unlock(h) ==> Holds(w, p, h);
      assert Holds(w, p, h) ==> p == q;
    }
  }

  lemma {:induction false} LockStaysTended(w: World, p: Pid, action: Action, next: World, h: Header)
    requires Guarded(w) && Tended(w) && Steps(w, p, action, next) && !next.robbed && !next.orphaned
    requires h in next.files.locks
    ensures Holds(next, next.files.locks[h], h)
  {
    var Move(to, effect) := MoveIn(w, p, action).value;
    LockMoves(p, PcOf(w, p), w.files, w.builds, action, h);
    LocksAfter(w.files, p, effect, h);
    var q := next.files.locks[h];
    assert PcOf(next, q) == if q == p then to else PcOf(w, q);
    if effect != Lock(h) {
      assert Holds(w, q, h);
    }
  }

  /** While no lock is removed under a process still at work, at most one process
      is between creating a header's lock and removing it, crashes and the
      removal of their locks included; and while none was left behind either, there
      is a lock exactly when there is such a process. */
  lemma {:induction false} LockExcludes(worlds: seq<World>, actors: seq<Pid>, actions: seq<Action>, k: nat)
    requires Run(worlds, actors, actions) && k <= |actors|
    requires Guarded(worlds[0]) && Tended(worlds[0])
    ensures Guarded(worlds[k]) && Tended(worlds[k])
    ensures !worlds[k].robbed ==> forall p, q, h :: Holds(worlds[k], p, h) && Holds(worlds[k], q, h) ==> p == q
    ensures !worlds[k].robbed && !worlds[k].orphaned ==>
      forall h :: h in worlds[k].files.locks <==> exists p :: Holds(worlds[k], p, h)
    decreases k
  {
    if k > 0 {
      var w, p, action, next := worlds[k - 1], actors[k - 1], actions[k - 1], worlds[k - 1 + 1];
      LockExcludes(worlds, actors, actions, k - 1);
      assert Steps(w, p, action, next);
      forall q, h | !next.robbed && Holds(next, q, h) ensures h in next.files.locks && next.files.locks[h] == q {
        HolderStaysGuarded(w, p, action, next, q, h);
      }
      forall h | !next.robbed && !next.orphaned && h in next.files.locks ensures Holds(next, next.files.locks[h], h) {
        LockStaysTended(w, p, action, next, h);
      }
    }
  }

  /** Clearing a lock under a process at work does break the exclusion: the
      clearer can be at work beside it three steps later. */
  lemma {:induction false} RobbingBreaksExclusion(w: World, p: Pid, c: Pid, h: Header)
    returns (w1: World, w2: World, w3: World)
    requires p != c && Holds(w, p, h) && PcOf(w, c) == Clearing(h)
    ensures Steps(w, c, Go(true), w1) && Steps(w1, c, Go(false), w2) && Steps(w2, c, Go(true), w3)
    ensures Holds(w3, p, h) && Holds(w3, c, h)
  {
    w1 := Step(w, c, Go(true)).value;
    w2 := Step(w1, c, Go(false)).value;
    w3 := Step(w2, c, Go(true)).value;
    assert PcOf(w3, p) == PcOf(w, p);
  }

  /** A process that missed takes a free lock and builds, though another has
      since published the package: the path is not looked at again. */
  lemma {:induction false} PublishedIsBuiltAgain(w: World, q: Pid, h: Header) returns (w1: World, w2: World)
    requires PcOf(w, q) == Missed(h) && h !in w.files.locks
    ensures Steps(w, q, Go(true), w1) && Steps(w1, q, Go(true), w2)
    ensures PcOf(w2, q) == Built(h, Build(h, w.builds)) && w2.builds == w.builds + 1
    ensures w2.files.paths == w.files.paths && w2.files.partials == w.files.partials && w2.files.disk == w.files.disk
    ensures w2.robbed == w.robbed && w2.orphaned == w.orphaned
    ensures forall p :: p != q ==> PcOf(w2, p) == PcOf(w, p)
  {
    w1 := Step(w, q, Go(true)).value;
    w2 := Step(w1, q, Go(true)).value;
  }

  /** Such a world is reached with no crash and no lock cleared: `p` publishes
      and unlocks while `q` is about to create the lock. */
  lemma {:induction false} PublishedBeforeLock(w: World, p: Pid, q: Pid, h: Header, b: Build, i: Inode)
    returns (w1: World, w2: World, w3: World)
    requires p != q && PcOf(w, p) == Written(h, b, i) && PcOf(w, q) == Missed(h)
    ensures Steps(w, p, Go(true), w1) && Steps(w1, p, Go(true), w2) && Steps(w2, p, Go(true), w3)
    ensures PcOf(w3, q) == Missed(h) && h !in w3.files.locks
    ensures h in w3.files.paths && w3.files.paths[h] == i
    ensures w3.robbed == w.robbed && w3.orphaned == w.orphaned && w3.builds == w.builds
  {
    w1 := Step(w, p, Go(true)).value;
    w2 := Step(w1, p, Go(true)).value;
    w3 := Step(w2, p, Go(true)).value;
  }

  const EMPTY: World := World(map[], Files(map[], map[], map[], map[]), 0, false, false)

  ghost predicate Leads(from: World, to: World) {
    exists worlds, actors, actions :: Run(worlds, actors, actions) && worlds[0] == from && worlds[|actors|] == to
  }

  lemma {:induction false} LeadsOn(from: World, w: World, p: Pid, action: Action, next: World)
    requires (from == w || Leads(from, w)) && Steps(w, p, action, next)
    ensures Leads(from, next)
  {
    var worlds, actors, actions := [w], [], [];
    if from != w {
      worlds, actors, actions :| Run(worlds, actors, actions) && worlds[0] == from && worlds[|actors|] == w;
    }
    var longer, who, what := worlds + [next], actors + [p], actions + [action];
    forall k | 0 <= k < |who| ensures Steps(longer[k], who[k], what[k], longer[k + 1]) {
      if k < |actors| {
        assert Steps(worlds[k], actors[k], actions[k], worlds[k + 1]);
      }
    }
    assert Run(longer, who, what) && longer[|who|] == next;
  }

  lemma {:induction false} BothMiss(h: Header) returns (w: World)
    ensures Leads(EMPTY, w) && PcOf(w, 0) == PcOf(w, 1) == Missed(h)
    ensures w.files == EMPTY.files && w.builds == 0 && !w.robbed && !w.orphaned
  {
    var w1 := Step(EMPTY, 0, Load(h)).value;
    LeadsOn(EMPTY, EMPTY, 0, Load(h), w1);
    var w2 := Step(w1, 0, Go(true)).value;
    LeadsOn(EMPTY, w1, 0, Go(true), w2);
    var w3 := Step(w2, 1, Load(h)).value;
    LeadsOn(EMPTY, w2, 1, Load(h), w3);
    w := Step(w3, 1, Go(true)).value;
    LeadsOn(EMPTY, w3, 1, Go(true), w);
  }

  lemma {:induction false} OneWrites(from: World, w: World, h: Header) returns (next: World)
    requires Leads(from, w) && PcOf(w, 0) == PcOf(w, 1) == Missed(h) && w.files == EMPTY.files
    ensures Leads(from, next) && PcOf(next, 0) == Written(h, Build(h, w.builds), 0) && PcOf(next, 1) == Missed(h)
    ensures next.builds == w.builds + 1 && next.robbed == w.robbed && next.orphaned == w.orphaned
  {
    var w1, w2 := PublishedIsBuiltAgain(w, 0, h);
    LeadsOn(from, w, 0, Go(true), w1);
    LeadsOn(from, w1, 0, Go(true), w2);
    var w3 := Step(w2, 0, Create(0)).value;
    LeadsOn(from, w2, 0, Create(0), w3);
    next := Step(w3, 0, Go(true)).value;
    LeadsOn(from, w3, 0, Go(true), next);
  }

  lemma {:induction false} OnePublishes(from: World, w: World, h: Header) returns (next: World)
    requires Leads(from, w) && PcOf(w, 0).Written? && PcOf(w, 0).header == h && PcOf(w, 1) == Missed(h)
    ensures Leads(from, next) && PcOf(next, 1) == Missed(h) && h !in next.files.locks && h in next.files.paths
    ensures next.builds == w.builds && next.robbed == w.robbed && next.orphaned == w.orphaned
  {
    var pc := PcOf(w, 0);
    var w1, w2;
    w1, w2, next := PublishedBeforeLock(w, 0, 1, h, pc.build, pc.inode);
    LeadsOn(from, w, 0, Go(true), w1);
    LeadsOn(from, w1, 0, Go(true), w2);
    LeadsOn(from, w2, 0, Go(true), next);
  }

  /** From an empty cache, with no crash and no lock cleared, a package is built
      again after it was published. */
  lemma {:induction false} BuiltTwiceUndisturbed(h: Header) returns (published: World, again: World)
    ensures Leads(EMPTY, published) && h in published.files.paths && published.builds == 1
    ensures Leads(published, again) && again.builds == 2 && !again.robbed && !again.orphaned
  {
    var missed := BothMiss(h);
    var written := OneWrites(EMPTY, missed, h);
    published := OnePublishes(EMPTY, written, h);
    var building;
    building, again := PublishedIsBuiltAgain(published, 1, h);
    LeadsOn(published, published, 1, Go(true), building);
    LeadsOn(published, building, 1, Go(true), again);
  }

  /** Each package path leads to one of the first `builds` builds, whole. */
  ghost predicate HoldsBuilds(files: Files, builds: nat) {
    forall h <- files.paths ::
      Importable(files, files.paths[h], h) && files.disk[files.paths[h]].build.number < builds
  }

  /** A directory no process is at work on meets what the laws above ask of the
      world a run starts in, whatever locks a crash has left; what they ask of the
      packages in it, exactly when each is one of the builds made so far, whole. */
  lemma {:induction false} QuietDirectoryIsSound(files: Files, builds: nat)
    requires Shared(files)
    ensures var w := World(map[], files, builds, false, true);
      Sound(w) && Guarded(w) && Tended(w) && (Complete(w) <==> HoldsBuilds(files, builds))
  {
    var w := World(map[], files, builds, false, true);
    assert forall h <- files.paths | HoldsBuilds(files, builds) :: Importable(files, files.paths[h], h);
  }
}
