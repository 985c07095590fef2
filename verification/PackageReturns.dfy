/**
 * What a process that asks the cache for a package comes away with: one whose
 * build and import succeed returns its own build, however its writing, renaming,
 * removing and unlocking come out and whatever others do meanwhile.
 */
module PackageReturns {
  import opened Prelude
  import opened PackageCache

  /** `c` is a build for `h`, and `b` itself when that is given. */
  predicate Meant(c: Build, h: Header, b: Option<Build>) {
    c.header == h && (b == None || b == Some(c))
  }

  /** The places of a process that builds for `h` itself, from building until it
      has returned what it built: `b` when that is built already. */
  predicate OnItsWay(pc: Pc, h: Header, b: Option<Build>) {
    match pc
    case Building(g) => g == h && b == None
    case Alone(g) => g == h && b == None
    case Built(g, c) => g == h && Meant(c, h, b)
    case Writing(g, c, _) => g == h && Meant(c, h, b)
    case Written(g, c, _) => g == h && Meant(c, h, b)
    case Dropping(g, c) => g == h && Meant(c, h, b)
    case Pruning(g, c) => g == h && Meant(c, h, b)
    case Unlocking(g, Some(c)) => g == h && Meant(c, h, b)
    case Importing(g, c) => g == h && Meant(c, h, b)
    case Returned(g, InMemory(c)) => g == h && Meant(c, h, b)
    case _ => false
  }

  /** How many steps lie ahead at most. */
  function Ahead(pc: Pc): nat {
    match pc
    case Building(_) => 8
    case Built(_, _) => 7
    case Writing(_, _, _) => 6
    case Written(_, _, _) => 5
    case Dropping(_, _) => 4
    case Pruning(_, _) => 3
    case Unlocking(_, _) => 2
    case Alone(_) => 2
    case Importing(_, _) => 1
    case _ => 0
  }

  predicate Decides(pc: Pc) {
    pc.Building? || pc.Alone? || pc.Importing?
  }

  /** The process is neither stopped nor done with, and its build and its import succeed. */
  predicate Succeeds(pc: Pc, action: Action) {
    !action.Crash? && !action.Exit? && (Decides(pc) ==> action == Go(true))
  }

  ghost predicate AllSucceed(worlds: seq<World>, actors: seq<Pid>, actions: seq<Action>, p: Pid, j: nat, k: nat)
    requires Run(worlds, actors, actions) && k <= |actors|
  {
    forall m | j <= m < k && actors[m] == p :: Succeeds(PcOf(worlds[m], p), actions[m])
  }

  /** The steps `p` took from `j` until `k`, other packages it pruned not counted. */
  function Taken(actors: seq<Pid>, actions: seq<Action>, p: Pid, j: nat, k: nat): nat
    requires j <= k <= |actors| && |actors| == |actions|
    decreases k
  {
    if k == j then 0
    else Taken(actors, actions, p, j, k - 1) + if actors[k - 1] == p && !actions[k - 1].Prune? then 1 else 0
  }

  /** `p` has no step of its own left to take. */
  ghost predicate AtRest(w: World, p: Pid) {
    forall ok :: Step(w, p, Go(ok)) == None
  }

  lemma {:induction false} StepOnItsWay(w: World, p: Pid, action: Action, next: World, h: Header, b: Option<Build>)
    requires Steps(w, p, action, next) && OnItsWay(PcOf(w, p), h, b) && Succeeds(PcOf(w, p), action)
    ensures OnItsWay(PcOf(next, p), h, b)
    ensures Ahead(PcOf(next, p)) + (if action.Prune? then 0 else 1) <= Ahead(PcOf(w, p))
  {
  }

  lemma {:induction false} RestsReturned(w: World, p: Pid, h: Header, b: Option<Build>)
    requires OnItsWay(PcOf(w, p), h, b)
    ensures AtRest(w, p) <==> PcOf(w, p).Returned?
  {
    assert Step(w, p, Go(false)) == None <==> PcOf(w, p).Returned?;
  }

  lemma {:induction false} StaysOnItsWay(worlds: seq<World>, actors: seq<Pid>, actions: seq<Action>, p: Pid,
                                         h: Header, b: Option<Build>, j: nat, k: nat)
    requires Run(worlds, actors, actions) && j <= k <= |actors|
    requires OnItsWay(PcOf(worlds[j], p), h, b) && AllSucceed(worlds, actors, actions, p, j, k)
    ensures OnItsWay(PcOf(worlds[k], p), h, b)
    ensures Ahead(PcOf(worlds[k], p)) + Taken(actors, actions, p, j, k) <= Ahead(PcOf(worlds[j], p))
    decreases k
  {
    if j < k {
      StaysOnItsWay(worlds, actors, actions, p, h, b, j, k - 1);
      assert Steps(worlds[k - 1], actors[k - 1], actions[k - 1], worlds[k - 1 + 1]);
      if actors[k - 1] == p {
        StepOnItsWay(worlds[k - 1], p, actions[k - 1], worlds[k], h, b);
      }
    }
  }

  /** A process that has built, is not stopped, and whose import succeeds returns
      what it built, from its own bytes: after at most seven steps of its own it
      is at rest, and it rests nowhere else. */
  lemma {:induction false} BuiltIsReturned(worlds: seq<World>, actors: seq<Pid>, actions: seq<Action>, p: Pid,
                                           h: Header, b: Build, j: nat, k: nat)
    requires Run(worlds, actors, actions) && Sound(worlds[0]) && j <= k <= |actors|
    requires PcOf(worlds[j], p) == Built(h, b) && AllSucceed(worlds, actors, actions, p, j, k)
    ensures Taken(actors, actions, p, j, k) <= 7
    ensures Taken(actors, actions, p, j, k) == 7 ==> AtRest(worlds[k], p)
    ensures AtRest(worlds[k], p) <==> PcOf(worlds[k], p) == Returned(h, InMemory(b))
  {
    ReturnedCarriesHeader(worlds, actors, actions, j);
    assert InHand(worlds[j], p);
    StaysOnItsWay(worlds, actors, actions, p, h, Some(b), j, k);
    RestsReturned(worlds[k], p, h, Some(b));
  }

  /** One that is to build, under the lock or with no usable cache, and whose build
      and import succeed, returns a build for its header from its own bytes. */
  lemma {:induction false} BuilderReturns(worlds: seq<World>, actors: seq<Pid>, actions: seq<Action>, p: Pid,
                                          h: Header, j: nat, k: nat)
    requires Run(worlds, actors, actions) && j <= k <= |actors|
    requires PcOf(worlds[j], p) == Building(h) || PcOf(worlds[j], p) == Alone(h)
    requires AllSucceed(worlds, actors, actions, p, j, k)
    ensures var most := if PcOf(worlds[j], p).Alone? then 2 else 8;
      && Taken(actors, actions, p, j, k) <= most
      && (Taken(actors, actions, p, j, k) == most ==> AtRest(worlds[k], p))
    ensures AtRest(worlds[k], p) <==>
      exists b: Build :: b.header == h && PcOf(worlds[k], p) == Returned(h, InMemory(b))
  {
    StaysOnItsWay(worlds, actors, actions, p, h, None, j, k);
    RestsReturned(worlds[k], p, h, None);
    var pc := PcOf(worlds[k], p);
    if pc.Returned? {
      assert pc == Returned(h, InMemory(pc.package.build));
    }
  }

  lemma {:induction false} FailsFrom(w: World, p: Pid, action: Action, next: World)
    requires Steps(w, p, action, next) && InHand(w, p) && PcOf(next, p) == Failed
    ensures if PcOf(w, p).Unlocking? then PcOf(w, p).result == None
            else action == Go(false) && (PcOf(w, p).Alone? || PcOf(w, p).Importing?)
  {
  }

  lemma {:induction false} GivesUpFrom(w: World, p: Pid, action: Action, next: World, h: Header)
    requires Steps(w, p, action, next) && PcOf(next, p) == Unlocking(h, None)
    ensures action == Go(false) && PcOf(w, p) == Building(h)
  {
  }

  /** A load that fails had its build or its import fail, and from there did
      nothing but remove its lock. */
  lemma {:induction false} FailsByItsOwn(worlds: seq<World>, actors: seq<Pid>, actions: seq<Action>, p: Pid, k: nat)
    returns (m: nat)
    requires Run(worlds, actors, actions) && Sound(worlds[0]) && k <= |actors|
    requires PcOf(worlds[0], p) == Idle && PcOf(worlds[k], p) == Failed
    ensures m < k && actors[m] == p && actions[m] == Go(false) && Decides(PcOf(worlds[m], p))
    ensures forall i | m < i <= k :: PcOf(worlds[i], p) == Failed || (PcOf(worlds[m], p).Building?
              && PcOf(worlds[i], p) == Unlocking(PcOf(worlds[m], p).header, None))
  {
    m := LastMove(worlds, actors, actions, p, k);
    assert Steps(worlds[m], p, actions[m], worlds[m + 1]);
    forall i | m < i <= k ensures PcOf(worlds[i], p) == Failed {
      Unmoved(worlds, actors, actions, p, m + 1, i);
    }
    ReturnedCarriesHeader(worlds, actors, actions, m);
    assert InHand(worlds[m], p);
    FailsFrom(worlds[m], p, actions[m], worlds[m + 1]);
    if PcOf(worlds[m], p).Unlocking? {
      var unlocking := m;
      m := LastMove(worlds, actors, actions, p, unlocking);
      assert Steps(worlds[m], p, actions[m], worlds[m + 1]);
      GivesUpFrom(worlds[m], p, actions[m], worlds[m + 1], PcOf(worlds[unlocking], p).header);
      forall i | m < i <= unlocking ensures PcOf(worlds[i], p) == PcOf(worlds[unlocking], p) {
        Unmoved(worlds, actors, actions, p, m + 1, i);
      }
    }
  }

  /** A process that waits looks again: once the lock is gone it returns the
      package there is, or takes the lock itself when there is none that is let
      through. */
  lemma {:induction false} WaiterTakesOver(w: World, p: Pid, h: Header)
    returns (w1: World, w2: World, w3: World, w4: World)
    requires PcOf(w, p) == Waiting(h) && h !in w.files.locks
    ensures Steps(w, p, Go(true), w1) && Steps(w1, p, Go(true), w2) && Steps(w2, p, Go(true), w3)
    ensures h in w.files.paths && Importable(w.files, w.files.paths[h], h) ==>
      w4 == w3 && PcOf(w3, p) == Returned(h, OnDisk(w.files.paths[h]))
    ensures h !in w.files.paths ==> w4 == w3 && PcOf(w3, p) == Building(h) && w3.files.locks == w.files.locks[h := p]
    ensures h in w.files.paths && !Importable(w.files, w.files.paths[h], h) ==>
      Steps(w3, p, Go(true), w4) && PcOf(w4, p) == Building(h) && w4.files.locks == w.files.locks[h := p]
  {
    w1 := Step(w, p, Go(true)).value;
    w2 := Step(w1, p, Go(true)).value;
    w3 := Step(w2, p, Go(true)).value;
    w4 := if h in w.files.paths && !Importable(w.files, w.files.paths[h], h) then Step(w3, p, Go(true)).value else w3;
  }
}
