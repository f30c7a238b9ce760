/**
  The request pipeline of extension.cpp and queue.h: the game thread submits requests and delivers
  results, the loop thread hands requests to curl and collects finished ones.

  Each thread is a program counter; an action is one step of one thread between two points where
  the other may run. Requests are numbered in the order in which they are put into the request queue.
 */
module Pipeline {
  import opened Options

  const MAX_PROCESS: nat := 10

  // ----- queue.h -----

  class LockedQueue<T> {
    var queue: seq<T>
    var locked: bool

    constructor ()
      ensures queue == [] && !locked
    {
      queue, locked := [], false;
    }

    method Lock()
      requires !locked
      modifies this`locked
      ensures locked
    {
      locked := true;
    }

    method Unlock()
      requires locked
      modifies this`locked
      ensures !locked
    {
      locked := false;
    }

    /** front() is undefined on an empty queue. */
    method Pop() returns (item: T)
      requires locked && queue != []
      modifies this`queue
      ensures [item] + queue == old(queue)
    {
      item := queue[0];
      queue := queue[1..];
    }

    method Push(item: T)
      requires locked
      modifies this`queue
      ensures queue == old(queue) + [item]
    {
      queue := queue + [item];
    }

    function Empty(): bool
      reads this
    {
      queue == []
    }
  }

  // ----- one run of AsyncPerformRequests -----

  /** How many requests one wake-up takes from the queue, when InitCurl succeeds as `ok` says. */
  function Taken(queue: seq<nat>, ok: nat -> bool, count: nat): (k: nat)
    ensures k <= |queue|
  {
    if queue == [] || count >= MAX_PROCESS then 0
    else 1 + Taken(queue[1..], ok, if ok(queue[0]) then count + 1 else count)
  }

  function Keep(s: seq<nat>, p: nat -> bool): seq<nat> {
    if s == [] then [] else Keep(s[..|s| - 1], p) + if p(s[|s| - 1]) then [s[|s| - 1]] else []
  }

  /** A wake-up takes at least ten requests, or all of them. */
  lemma {:induction false} TakesTen(queue: seq<nat>, ok: nat -> bool, count: nat)
    requires count <= MAX_PROCESS
    ensures Taken(queue, ok, count) == |queue| || Taken(queue, ok, count) >= MAX_PROCESS - count
    ensures |Keep(queue[..Taken(queue, ok, count)], ok)| <= MAX_PROCESS - count
    decreases |queue|
  {
    if queue != [] && count < MAX_PROCESS {
      var k := Taken(queue, ok, count);
      TakesTen(queue[1..], ok, if ok(queue[0]) then count + 1 else count);
      assert queue[..k] == [queue[0]] + queue[1..][..k - 1];
      KeepHead(queue[0], queue[1..][..k - 1], ok);
    } else {
      assert queue[..0] == [];
    }
  }

  lemma {:induction false} KeepHead(x: nat, s: seq<nat>, p: nat -> bool)
    ensures Keep([x] + s, p) == (if p(x) then [x] else []) + Keep(s, p)
    decreases |s|
  {
    if s == [] {
      assert [x] + s == [x] && [x][..0] == [];
    } else {
      assert ([x] + s)[..|s|] == [x] + s[..|s| - 1];
      KeepHead(x, s[..|s| - 1], p);
    }
  }

  /** AsyncPerformRequests: added is what goes to curl, in order. */
  method AsyncPerformRequests(requests: LockedQueue<nat>, ok: nat -> bool) returns (added: seq<nat>, deleted: seq<nat>)
    requires !requests.locked
    modifies requests
    ensures !requests.locked
    ensures var q := old(requests.queue); var k := Taken(q, ok, 0);
            requests.queue == q[k..] && added == Keep(q[..k], ok) && deleted == Keep(q[..k], (x: nat) => !ok(x))
  {
    ghost var q := requests.queue;
    requests.Lock();
    var count := 0;
    added, deleted := [], [];
    ghost var k := 0;
    while !requests.Empty() && count < MAX_PROCESS
      invariant requests.locked && k <= |q| && requests.queue == q[k..] && count <= MAX_PROCESS
      invariant Taken(q, ok, 0) == k + Taken(q[k..], ok, count)
      invariant added == Keep(q[..k], ok) && deleted == Keep(q[..k], (x: nat) => !ok(x))
      decreases |requests.queue|
    {
      var context := requests.Pop();
      assert q[..k + 1][..k] == q[..k] && q[k..][1..] == q[k + 1..];
      k := k + 1;
      if !ok(context) {
        deleted := deleted + [context];
      } else {
        added := added + [context];
        count := count + 1;
      }
    }
    requests.Unlock();
  }

  // ----- the two threads -----

  datatype Thread = GameThread | LoopThread

  /** Where the game thread is. Between CompPopped and CompFreed it holds the lock of the completed queue. */
  datatype Game =
    | GameIdle
    | AddWait | AddHeld | AddPushed                                      // AddRequestToQueue
    | FrameMiddle | CompWait | CompHeld | CompPopped(c: nat)             // FrameHook
    | Delivering(c: nat)                                                 // inside OnCompleted
    | NestedWait(c: nat) | NestedHeld(c: nat) | NestedPushed(c: nat)     // which submits a request
    | CompFreed

  /** Where the loop thread is. */
  datatype Loop =
    | LoopIdle
    | PerfWait | Perf(count: nat, popped: nat) | Init(c: nat, count: nat, popped: nat)   // AsyncPerformRequests
    | Check | DoneWait(c: nat) | DoneHeld(c: nat) | DonePushed                           // CheckCompletedRequests

  /** made counts the requests put into the queue; the last six fields are a record of what happened; done is the order of completion. */
  datatype State = State(requests: seq<nat>, completed: seq<nat>, active: seq<nat>, posted: bool,
                         reqLock: set<Thread>, compLock: set<Thread>, game: Game, loop: Loop, made: nat,
                         taken: seq<nat>, entered: seq<nat>, delivered: seq<nat>, freed: seq<nat>, wakes: nat,
                         done: seq<nat>)

  const START := State([], [], [], false, {}, {}, GameIdle, LoopIdle, 0, [], [], [], [], 0, [])

  datatype Action =
    | Submit | FrameStart | GameStep | CallSubmit | CallReturn
    | WakeUp | Activity | InitOk | InitFails | TransferDone(i: nat) | NoMoreDone | LoopStep

  /** A step of the game thread. */
  function GameDo(s: State, a: Action): Option<State> {
    match s.game
    case GameIdle =>
      if a.Submit? then Some(s.(game := AddWait))
      else if a.FrameStart? then Some(s.(game := FrameMiddle, posted := s.posted || s.requests != []))
      else None
    case AddWait => if a.GameStep? && s.reqLock == {} then Some(s.(game := AddHeld, reqLock := {GameThread})) else None
    case AddHeld => if a.GameStep? then Some(s.(game := AddPushed, requests := s.requests + [s.made], made := s.made + 1)) else None
    case AddPushed => if a.GameStep? then Some(s.(game := GameIdle, reqLock := {})) else None
    case FrameMiddle => if a.GameStep? then Some(s.(game := if s.completed != [] then CompWait else GameIdle)) else None
    case CompWait => if a.GameStep? && s.compLock == {} then Some(s.(game := CompHeld, compLock := {GameThread})) else None
    case CompHeld =>
      if a.GameStep? && s.completed != [] then Some(s.(game := CompPopped(s.completed[0]), completed := s.completed[1..])) else None
    case CompPopped(c) => if a.GameStep? then Some(s.(game := Delivering(c), delivered := s.delivered + [c])) else None
    case Delivering(c) =>
      if a.CallSubmit? then Some(s.(game := NestedWait(c)))
      else if a.CallReturn? then Some(s.(game := CompFreed, freed := s.freed + [c]))
      else None
    case NestedWait(c) => if a.GameStep? && s.reqLock == {} then Some(s.(game := NestedHeld(c), reqLock := {GameThread})) else None
    case NestedHeld(c) => if a.GameStep? then Some(s.(game := NestedPushed(c), requests := s.requests + [s.made], made := s.made + 1)) else None
    case NestedPushed(c) => if a.GameStep? then Some(s.(game := Delivering(c), reqLock := {})) else None
    case CompFreed => if a.GameStep? then Some(s.(game := GameIdle, compLock := {})) else None
  }

  /** A step of the loop thread. */
  function LoopDo(s: State, a: Action): Option<State> {
    match s.loop
    case LoopIdle =>
      if a.WakeUp? && s.posted then Some(s.(loop := PerfWait, posted := false))
      else if a.Activity? then Some(s.(loop := Check))
      else None
    case PerfWait => if a.LoopStep? && s.reqLock == {} then Some(s.(loop := Perf(0, 0), reqLock := {LoopThread})) else None
    case Perf(count, popped) =>
      if !a.LoopStep? then None
      else if s.requests != [] && count < MAX_PROCESS then
        Some(s.(loop := Init(s.requests[0], count, popped + 1), requests := s.requests[1..], taken := s.taken + [s.requests[0]]))
      else Some(s.(loop := LoopIdle, reqLock := {}, wakes := s.wakes + 1))
    case Init(c, count, popped) =>
      if a.InitOk? then Some(s.(loop := Perf(count + 1, popped), active := s.active + [c], entered := s.entered + [c]))
      else if a.InitFails? then Some(s.(loop := Perf(count, popped), freed := s.freed + [c]))
      else None
    case Check =>
      if a.TransferDone? && a.i < |s.active| then
        Some(s.(loop := DoneWait(s.active[a.i]), active := s.active[..a.i] + s.active[a.i + 1..]))
      else if a.NoMoreDone? then Some(s.(loop := LoopIdle))
      else None
    case DoneWait(c) => if a.LoopStep? && s.compLock == {} then Some(s.(loop := DoneHeld(c), compLock := {LoopThread})) else None
    case DoneHeld(c) => if a.LoopStep? then Some(s.(loop := DonePushed, completed := s.completed + [c], done := s.done + [c])) else None
    case DonePushed => if a.LoopStep? then Some(s.(loop := Check, compLock := {})) else None
  }

  predicate OfGame(a: Action) {
    a.Submit? || a.FrameStart? || a.GameStep? || a.CallSubmit? || a.CallReturn?
  }

  /** The state after an action, if it can happen. */
  function Do(s: State, a: Action): Option<State> {
    if OfGame(a) then GameDo(s, a) else LoopDo(s, a)
  }

  ghost predicate Run(s: State, actions: seq<Action>, t: State)
    decreases |actions|
  {
    if actions == [] then s == t
    else Do(s, actions[0]).Some? && Run(Do(s, actions[0]).value, actions[1..], t)
  }

  // ----- what every step keeps -----

  predicate GameHasReq(g: Game) {
    g.AddHeld? || g.AddPushed? || g.NestedHeld? || g.NestedPushed?
  }

  predicate GameHasComp(g: Game) {
    g.CompHeld? || g.CompPopped? || g.Delivering? || g.NestedWait? || g.NestedHeld? || g.NestedPushed? || g.CompFreed?
  }

  predicate LoopHasReq(l: Loop) {
    l.Perf? || l.Init?
  }

  predicate LoopHasComp(l: Loop) {
    l.DoneHeld? || l.DonePushed?
  }

  /** A lock is held by the one thread whose program counter says so. */
  predicate Locks(s: State) {
    && s.reqLock == (if GameHasReq(s.game) then {GameThread} else {}) + (if LoopHasReq(s.loop) then {LoopThread} else {})
    && s.compLock == (if GameHasComp(s.game) then {GameThread} else {}) + (if LoopHasComp(s.loop) then {LoopThread} else {})
    && !(GameHasReq(s.game) && LoopHasReq(s.loop)) && !(GameHasComp(s.game) && LoopHasComp(s.loop))
  }

  /** What the threads have in hand, outside all queues. */
  function GameHand(g: Game): seq<nat> {
    if g.CompPopped? || Delivered(g) then [g.c] else []
  }

  function LoopHand(l: Loop): seq<nat> {
    if l.Init? || l.DoneWait? || l.DoneHeld? then [l.c] else []
  }

  /** OnCompleted has been called for the request in hand. */
  predicate Delivered(g: Game) {
    g.Delivering? || g.NestedWait? || g.NestedHeld? || g.NestedPushed?
  }

  /** Everywhere a request can be. */
  function Everywhere(s: State): multiset<nat> {
    multiset(s.requests) + multiset(s.active) + multiset(s.completed) + multiset(s.freed) + multiset(GameHand(s.game)) + multiset(LoopHand(s.loop))
  }

  function Upto(n: nat): (r: seq<nat>)
    ensures |r| == n && forall i :: 0 <= i < n ==> r[i] == i
  {
    seq(n, i requires 0 <= i < n => i)
  }

  /** No request is lost or doubled. */
  ghost predicate Conserved(s: State) {
    Everywhere(s) == multiset(Upto(s.made))
  }

  /** Requests leave the queue in the order in which they came. */
  ghost predicate InOrder(s: State) {
    s.taken + s.requests == Upto(s.made)
  }

  ghost predicate Increasing(s: seq<nat>) {
    forall i, j :: 0 <= i < j < |s| ==> s[i] < s[j]
  }

  /** Requests enter curl in that order. */
  ghost predicate EntersInOrder(s: State) {
    && Increasing(s.entered)
    && (forall i :: 0 <= i < |s.entered| ==> s.entered[i] < |s.taken|)
    && (s.loop.Init? ==> s.loop.c + 1 == |s.taken| && forall i :: 0 <= i < |s.entered| ==> s.entered[i] < s.loop.c)
  }

  /** Deliveries: those freed after OnCompleted, and one being delivered. */
  ghost predicate Delivers(s: State) {
    multiset(s.delivered) <= multiset(s.freed) + multiset(InDelivery(s.game))
  }

  function InDelivery(g: Game): seq<nat> {
    if Delivered(g) then [g.c] else []
  }

  /** Taken from the completed queue, but OnCompleted not called yet. */
  function Popping(g: Game): seq<nat> {
    if g.CompPopped? then [g.c] else []
  }

  /** Requests are delivered in the order in which they were completed, and none is left out. */
  ghost predicate DeliversInOrder(s: State) {
    s.delivered + Popping(s.game) + s.completed == s.done
  }

  /** Only the game thread takes from the completed queue: what it saw there is still there. */
  predicate StillThere(s: State) {
    s.game.CompWait? || s.game.CompHeld? ==> s.completed != []
  }

  /** A wake-up counts only the requests that entered curl. */
  predicate Counts(s: State) {
    match s.loop
    case Perf(count, popped) => count <= MAX_PROCESS && count <= popped
    case Init(_, count, popped) => count < MAX_PROCESS && count < popped
    case _ => true
  }

  ghost predicate Inv(s: State) {
    Locks(s) && Conserved(s) && InOrder(s) && EntersInOrder(s) && Delivers(s) && DeliversInOrder(s) && StillThere(s) && Counts(s)
  }

  lemma StartInv()
    ensures Inv(START)
  {
    assert Upto(0) == [];
    assert Everywhere(START) == multiset{};
  }

  lemma HeadTail(q: seq<nat>)
    requires q != []
    ensures multiset(q) == multiset{q[0]} + multiset(q[1..])
  {
    assert q == [q[0]] + q[1..];
  }

  lemma CutOut(q: seq<nat>, i: nat)
    requires i < |q|
    ensures multiset(q) == multiset{q[i]} + multiset(q[..i] + q[i + 1..])
  {
    assert q == q[..i] + [q[i]] + q[i + 1..];
  }

  lemma UptoNext(n: nat)
    ensures Upto(n + 1) == Upto(n) + [n]
  {}

  // The kinds of steps, by what they move.

  predicate GameMovesNothing(s: State, t: State) {
    t.requests == s.requests && t.made == s.made && t.completed == s.completed && t.freed == s.freed && GameHand(t.game) == GameHand(s.game)
  }

  predicate GamePushes(s: State, t: State) {
    && t.requests == s.requests + [s.made] && t.made == s.made + 1 && t.completed == s.completed && t.freed == s.freed
    && GameHand(t.game) == GameHand(s.game)
  }

  predicate GamePops(s: State, t: State) {
    && s.completed != [] && t.completed == s.completed[1..] && GameHand(s.game) == [] && GameHand(t.game) == [s.completed[0]]
    && t.requests == s.requests && t.freed == s.freed && t.made == s.made
  }

  predicate GameFrees(s: State, t: State) {
    && t.freed == s.freed + GameHand(s.game) && GameHand(t.game) == []
    && t.requests == s.requests && t.completed == s.completed && t.made == s.made
  }

  lemma GameMoves(s: State, a: Action)
    requires GameDo(s, a).Some?
    ensures var t := GameDo(s, a).value;
            t.active == s.active && t.loop == s.loop && (GameMovesNothing(s, t) || GamePushes(s, t) || GamePops(s, t) || GameFrees(s, t))
  {}

  lemma GameKeepsConserved(s: State, a: Action)
    requires Conserved(s) && GameDo(s, a).Some?
    ensures Conserved(GameDo(s, a).value)
  {
    hide GameDo, Upto, GameHand, LoopHand, Conserved, GameMovesNothing, GamePushes, GamePops, GameFrees;
    GameMoves(s, a);
    var t := GameDo(s, a).value;
    if GameMovesNothing(s, t) {
      NothingKeeps(s, t);
    } else if GamePushes(s, t) {
      PushKeeps(s, t);
    } else if GamePops(s, t) {
      PopKeeps(s, t);
    } else {
      FreeKeeps(s, t);
    }
  }

  lemma NothingKeeps(s: State, t: State)
    requires Conserved(s) && t.active == s.active && t.loop == s.loop && GameMovesNothing(s, t)
    ensures Conserved(t)
  {
    hide Upto, GameHand, LoopHand;
  }

  lemma PushKeeps(s: State, t: State)
    requires Conserved(s) && t.active == s.active && t.loop == s.loop && GamePushes(s, t)
    ensures Conserved(t)
  {
    hide Upto, GameHand, LoopHand;
    UptoNext(s.made);
    Snoc(s.requests, s.made);
    Snoc(Upto(s.made), s.made);
  }

  lemma PopKeeps(s: State, t: State)
    requires Conserved(s) && t.active == s.active && t.loop == s.loop && GamePops(s, t)
    ensures Conserved(t)
  {
    hide Upto, GameHand, LoopHand;
    HeadTail(s.completed);
  }

  lemma FreeKeeps(s: State, t: State)
    requires Conserved(s) && t.active == s.active && t.loop == s.loop && GameFrees(s, t)
    ensures Conserved(t)
  {
    hide Upto, GameHand, LoopHand;
  }

  lemma Snoc(q: seq<nat>, x: nat)
    ensures multiset(q + [x]) == multiset(q) + multiset{x}
  {}

  predicate LoopMovesNothing(s: State, t: State) {
    && t.requests == s.requests && t.active == s.active && t.completed == s.completed && t.freed == s.freed
    && LoopHand(t.loop) == LoopHand(s.loop)
  }

  predicate LoopPops(s: State, t: State) {
    && s.requests != [] && t.requests == s.requests[1..] && LoopHand(s.loop) == [] && LoopHand(t.loop) == [s.requests[0]]
    && t.active == s.active && t.completed == s.completed && t.freed == s.freed
  }

  predicate LoopPuts(s: State, t: State) {
    && LoopHand(t.loop) == [] && t.requests == s.requests
    && ((t.active == s.active + LoopHand(s.loop) && t.freed == s.freed && t.completed == s.completed)
       || (t.active == s.active && t.freed == s.freed + LoopHand(s.loop) && t.completed == s.completed)
       || (t.active == s.active && t.freed == s.freed && t.completed == s.completed + LoopHand(s.loop)))
  }

  predicate LoopTakes(s: State, t: State, i: nat) {
    && i < |s.active| && t.active == s.active[..i] + s.active[i + 1..] && LoopHand(s.loop) == [] && LoopHand(t.loop) == [s.active[i]]
    && t.requests == s.requests && t.completed == s.completed && t.freed == s.freed
  }

  lemma LoopMoves(s: State, a: Action)
    requires LoopDo(s, a).Some?
    ensures var t := LoopDo(s, a).value;
            t.made == s.made && t.game == s.game &&
            (LoopMovesNothing(s, t) || LoopPops(s, t) || LoopPuts(s, t) || (a.TransferDone? && LoopTakes(s, t, a.i)))
  {}

  lemma LoopKeepsConserved(s: State, a: Action)
    requires Conserved(s) && LoopDo(s, a).Some?
    ensures Conserved(LoopDo(s, a).value)
  {
    hide LoopDo, Upto, GameHand, LoopHand, Conserved, LoopMovesNothing, LoopPops, LoopPuts, LoopTakes;
    LoopMoves(s, a);
    var t := LoopDo(s, a).value;
    if LoopMovesNothing(s, t) {
      LoopNothingKeeps(s, t);
    } else if LoopPops(s, t) {
      LoopPopKeeps(s, t);
    } else if LoopPuts(s, t) {
      LoopPutKeeps(s, t);
    } else {
      LoopTakeKeeps(s, t, a.i);
    }
  }

  lemma LoopNothingKeeps(s: State, t: State)
    requires Conserved(s) && t.made == s.made && t.game == s.game && LoopMovesNothing(s, t)
    ensures Conserved(t)
  {
    hide Upto, GameHand, LoopHand;
  }

  lemma LoopPopKeeps(s: State, t: State)
    requires Conserved(s) && t.made == s.made && t.game == s.game && LoopPops(s, t)
    ensures Conserved(t)
  {
    hide Upto, GameHand, LoopHand;
    HeadTail(s.requests);
  }

  lemma LoopPutKeeps(s: State, t: State)
    requires Conserved(s) && t.made == s.made && t.game == s.game && LoopPuts(s, t)
    ensures Conserved(t)
  {
    hide Upto, GameHand, LoopHand;
  }

  lemma LoopTakeKeeps(s: State, t: State, i: nat)
    requires Conserved(s) && t.made == s.made && t.game == s.game && LoopTakes(s, t, i)
    ensures Conserved(t)
  {
    hide Upto, GameHand, LoopHand;
    CutOut(s.active, i);
  }

  lemma KeepsInOrder(s: State, a: Action)
    requires InOrder(s) && Do(s, a).Some?
    ensures InOrder(Do(s, a).value)
  {
    hide Do, Upto;
    UptoNext(s.made);
    OrderMoves(s, a);
    assert s.taken + (s.requests + [s.made]) == s.taken + s.requests + [s.made];
    if s.requests != [] {
      assert s.taken + [s.requests[0]] + s.requests[1..] == s.taken + s.requests;
    }
  }

  lemma OrderMoves(s: State, a: Action)
    requires Do(s, a).Some?
    ensures var t := Do(s, a).value;
            || (t.taken == s.taken && t.requests == s.requests && t.made == s.made)
            || (t.taken == s.taken && t.requests == s.requests + [s.made] && t.made == s.made + 1)
            || (s.requests != [] && t.taken == s.taken + [s.requests[0]] && t.requests == s.requests[1..] && t.made == s.made)
  {
    hide GameDo;
    if OfGame(a) {
      GameOrderMoves(s, a);
    }
  }

  lemma GameOrderMoves(s: State, a: Action)
    requires GameDo(s, a).Some?
    ensures var t := GameDo(s, a).value;
            || (t.taken == s.taken && t.requests == s.requests && t.made == s.made)
            || (t.taken == s.taken && t.requests == s.requests + [s.made] && t.made == s.made + 1)
            || (s.requests != [] && t.taken == s.taken + [s.requests[0]] && t.requests == s.requests[1..] && t.made == s.made)
  {}

  lemma KeepsEnters(s: State, a: Action)
    requires InOrder(s) && EntersInOrder(s) && Do(s, a).Some?
    ensures EntersInOrder(Do(s, a).value)
  {
    if !OfGame(a) && s.loop.Perf? && s.requests != [] {
      assert (s.taken + s.requests)[|s.taken|] == |s.taken|;
    }
  }

  lemma KeepsLocks(s: State, a: Action)
    requires Locks(s) && Do(s, a).Some?
    ensures Locks(Do(s, a).value)
  {
    hide GameDo, LoopDo, Locks;
    if OfGame(a) {
      KeepsGameLocks(s, a);
    } else {
      KeepsLoopLocks(s, a);
    }
  }

  lemma KeepsGameLocks(s: State, a: Action)
    requires Locks(s) && GameDo(s, a).Some?
    ensures Locks(GameDo(s, a).value)
  {
    hide LoopHasReq, LoopHasComp;
  }

  lemma KeepsLoopLocks(s: State, a: Action)
    requires Locks(s) && LoopDo(s, a).Some?
    ensures Locks(LoopDo(s, a).value)
  {
    hide GameHasReq, GameHasComp;
  }

  lemma DeliveryMoves(s: State, a: Action)
    requires Do(s, a).Some?
    ensures var t := Do(s, a).value;
            || (t.delivered == s.delivered && InDelivery(t.game) == InDelivery(s.game) && s.freed <= t.freed)
            || (t.delivered == s.delivered + InDelivery(t.game) && InDelivery(s.game) == [] && t.freed == s.freed)
            || (t.delivered == s.delivered && t.freed == s.freed + InDelivery(s.game) && InDelivery(t.game) == [])
  {
    hide GameDo;
    if OfGame(a) {
      GameDeliveryMoves(s, a);
    }
  }

  lemma GameDeliveryMoves(s: State, a: Action)
    requires GameDo(s, a).Some?
    ensures var t := GameDo(s, a).value;
            || (t.delivered == s.delivered && InDelivery(t.game) == InDelivery(s.game) && s.freed <= t.freed)
            || (t.delivered == s.delivered + InDelivery(t.game) && InDelivery(s.game) == [] && t.freed == s.freed)
            || (t.delivered == s.delivered && t.freed == s.freed + InDelivery(s.game) && InDelivery(t.game) == [])
  {}

  lemma KeepsDelivers(s: State, a: Action)
    requires Delivers(s) && Do(s, a).Some?
    ensures Delivers(Do(s, a).value)
  {
    hide Do, InDelivery;
    DeliveryMoves(s, a);
    var t := Do(s, a).value;
    if s.freed <= t.freed {
      assert t.freed == s.freed + t.freed[|s.freed|..];
    }
  }

  lemma CompletionMoves(s: State, a: Action)
    requires StillThere(s) && Do(s, a).Some?
    ensures var t := Do(s, a).value;
            || (t.delivered == s.delivered && Popping(t.game) == Popping(s.game) && t.completed == s.completed && t.done == s.done)
            || (s.completed != [] && t.delivered == s.delivered && Popping(s.game) == [] && Popping(t.game) == [s.completed[0]] &&
                t.completed == s.completed[1..] && t.done == s.done)
            || (t.delivered == s.delivered + Popping(s.game) && Popping(t.game) == [] && t.completed == s.completed && t.done == s.done)
            || exists c :: t.delivered == s.delivered && t.game == s.game && t.completed == s.completed + [c] && t.done == s.done + [c]
  {
    if OfGame(a) {
    } else if s.loop.DoneHeld? {
      var t := Do(s, a).value;
      assert t.completed == s.completed + [s.loop.c] && t.done == s.done + [s.loop.c];
    }
  }

  lemma KeepsDeliversInOrder(s: State, a: Action)
    requires DeliversInOrder(s) && StillThere(s) && Do(s, a).Some?
    ensures DeliversInOrder(Do(s, a).value)
  {
    hide Do, Popping, StillThere;
    CompletionMoves(s, a);
    if s.completed != [] {
      assert [s.completed[0]] + s.completed[1..] == s.completed;
    }
  }

  lemma KeepsRest(s: State, a: Action)
    requires StillThere(s) && Counts(s) && Do(s, a).Some?
    ensures var t := Do(s, a).value; StillThere(t) && Counts(t)
  {}

  /** Every action keeps the invariant. */
  lemma StepInv(s: State, a: Action)
    requires Inv(s) && Do(s, a).Some?
    ensures Inv(Do(s, a).value)
  {
    hide *;
    InvParts(s);
    DoIs(s, a);
    if OfGame(a) {
      GameKeepsConserved(s, a);
    } else {
      LoopKeepsConserved(s, a);
    }
    KeepsInOrder(s, a);
    KeepsEnters(s, a);
    KeepsLocks(s, a);
    KeepsDelivers(s, a);
    KeepsDeliversInOrder(s, a);
    KeepsRest(s, a);
    InvIs(Do(s, a).value);
  }

  lemma InvParts(s: State)
    requires Inv(s)
    ensures Locks(s) && Conserved(s) && InOrder(s) && EntersInOrder(s) && Delivers(s) && DeliversInOrder(s) && StillThere(s) && Counts(s)
  {}

  lemma InvIs(s: State)
    requires Locks(s) && Conserved(s) && InOrder(s) && EntersInOrder(s) && Delivers(s) && DeliversInOrder(s) && StillThere(s) && Counts(s)
    ensures Inv(s)
  {}

  lemma DoIs(s: State, a: Action)
    ensures Do(s, a) == if OfGame(a) then GameDo(s, a) else LoopDo(s, a)
  {}

  lemma {:induction false} RunInv(s: State, actions: seq<Action>, t: State)
    requires Inv(s) && Run(s, actions, t)
    ensures Inv(t)
    decreases |actions|
  {
    hide Inv, Do;
    if actions != [] {
      StepInv(s, actions[0]);
      RunInv(Do(s, actions[0]).value, actions[1..], t);
    }
  }

  // ----- what that means -----

  ghost predicate Distinct(s: seq<nat>) {
    forall i, j :: 0 <= i < j < |s| ==> s[i] != s[j]
  }

  lemma {:induction false} CountUpto(n: nat, c: nat)
    ensures multiset(Upto(n))[c] == if c < n then 1 else 0
  {
    if n > 0 {
      CountUpto(n - 1, c);
      UptoNext(n - 1);
    }
  }

  lemma FewMeansDistinct(s: seq<nat>)
    requires forall c :: multiset(s)[c] <= 1
    ensures Distinct(s)
  {
    forall i, j | 0 <= i < j < |s| ensures s[i] != s[j] {
      TwiceCounts(s, i, j);
    }
  }

  lemma TwiceCounts(s: seq<nat>, i: nat, j: nat)
    requires i < j < |s|
    ensures s[i] == s[j] ==> multiset(s)[s[i]] >= 2
  {
    assert s == s[..i] + [s[i]] + s[i + 1..j] + [s[j]] + s[j + 1..];
  }

  /**
    In every run: each request is in exactly one place, none is given to OnCompleted twice,
    requests enter curl in the order in which they were submitted, and OnCompleted is called in the
    order in which they were completed.
   */
  lemma Pipelined(actions: seq<Action>, s: State, c: nat)
    requires Run(START, actions, s)
    ensures Everywhere(s)[c] == if c < s.made then 1 else 0
    ensures Distinct(s.delivered) && Increasing(s.entered)
    ensures s.taken + s.requests == Upto(s.made)
    ensures s.delivered + Popping(s.game) + s.completed == s.done
  {
    hide Everywhere, Upto, Popping, Increasing, Do, Run, Locks, StillThere, Counts;
    StartInv();
    RunInv(START, actions, s);
    CountUpto(s.made, c);
    DeliveredOnce(s);
  }

  lemma DeliveredOnce(s: State)
    requires Conserved(s) && Delivers(s)
    ensures Distinct(s.delivered)
  {
    hide Upto;
    forall c ensures multiset(s.delivered)[c] <= 1 {
      CountUpto(s.made, c);
      assert (multiset(s.freed) + multiset(InDelivery(s.game)))[c] <= Everywhere(s)[c];
    }
    FewMeansDistinct(s.delivered);
  }

  /** A queue is never popped when it is empty. */
  lemma PopsFindSomething(s: State)
    requires Inv(s) && s.game.CompHeld?
    ensures Do(s, GameStep).Some?
  {
    hide Conserved, InOrder, EntersInOrder, Delivers;
  }

  // ----- locks -----

  predicate GameAwaits(s: State, l: set<Thread>) {
    (s.game.AddWait? || s.game.NestedWait? || s.game.CompWait?) && l == if s.game.CompWait? then s.compLock else s.reqLock
  }

  predicate LoopAwaits(s: State, l: set<Thread>) {
    (s.loop.PerfWait? || s.loop.DoneWait?) && l == if s.loop.DoneWait? then s.compLock else s.reqLock
  }

  /** The threads never wait for each other in a cycle, even when OnCompleted submits a request. */
  lemma NoCycle(s: State)
    requires Inv(s)
    ensures !((GameAwaits(s, {LoopThread})) && LoopAwaits(s, {GameThread}))
  {
    hide Conserved, InOrder, EntersInOrder, Delivers, Counts, StillThere;
  }

  /** Whoever holds a lock that is awaited goes on, or waits for the other lock, whose holder goes on. */
  lemma SomeoneRuns(s: State)
    requires Inv(s) && (s.game != GameIdle || s.loop != LoopIdle)
    ensures exists a :: a in [GameStep, CallReturn, LoopStep, InitOk, NoMoreDone] && Do(s, a).Some?
  {
    hide Conserved, InOrder, EntersInOrder, Delivers, Counts;
    assert GameStep in [GameStep, CallReturn, LoopStep, InitOk, NoMoreDone];
    if s.game.Delivering? {
      assert Do(s, CallReturn).Some?;
    } else if s.game != GameIdle && Do(s, GameStep).Some? {
    } else if s.loop.Init? {
      assert Do(s, InitOk).Some?;
    } else if s.loop.Check? {
      assert Do(s, NoMoreDone).Some?;
    } else {
      assert Do(s, LoopStep).Some?;
    }
  }

  // ----- progress -----

  /** Actions that put no request into the queue. */
  predicate Quiet(s: State, a: Action) {
    a.GameStep? ==> !s.game.AddHeld? && !s.game.NestedHeld?
  }

  ghost predicate QuietRun(s: State, actions: seq<Action>, t: State)
    decreases |actions|
  {
    if actions == [] then s == t
    else Quiet(s, actions[0]) && Do(s, actions[0]).Some? && QuietRun(Do(s, actions[0]).value, actions[1..], t)
  }

  function Popped(l: Loop): nat {
    match l
    case Perf(_, popped) => popped
    case Init(_, _, popped) => popped
    case _ => 0
  }

  /** What a step does to the count of requests and wake-ups. */
  lemma QuietMoves(s: State, a: Action)
    requires Counts(s) && Quiet(s, a) && Do(s, a).Some?
    ensures var t := Do(s, a).value;
            || (t.requests == s.requests && t.wakes == s.wakes && Popped(t.loop) == Popped(s.loop))
            || (s.requests != [] && t.requests == s.requests[1..] && t.wakes == s.wakes && Popped(t.loop) == Popped(s.loop) + 1)
            || (t.requests == s.requests && t.wakes == s.wakes + 1 && Popped(t.loop) == 0 && (s.requests == [] || Popped(s.loop) >= MAX_PROCESS))
  {}

  lemma QuietStep(s: State, a: Action, n: nat)
    requires Inv(s) && Quiet(s, a) && Do(s, a).Some?
    requires s.requests == [] || |s.requests| + MAX_PROCESS * s.wakes + Popped(s.loop) <= n
    ensures var t := Do(s, a).value;
            t.requests == [] || |t.requests| + MAX_PROCESS * t.wakes + Popped(t.loop) <= n
  {
    hide *;
    InvParts(s);
    QuietMoves(s, a);
  }

  lemma {:induction false} QuietDrains(s: State, actions: seq<Action>, t: State, n: nat)
    requires Inv(s) && QuietRun(s, actions, t)
    requires s.requests == [] || |s.requests| + MAX_PROCESS * s.wakes + Popped(s.loop) <= n
    ensures t.requests == [] || |t.requests| + MAX_PROCESS * t.wakes + Popped(t.loop) <= n
    decreases |actions|
  {
    hide Inv, Do, Quiet;
    if actions != [] {
      QuietStep(s, actions[0], n);
      StepInv(s, actions[0]);
      QuietDrains(Do(s, actions[0]).value, actions[1..], t, n);
    }
  }

  /** Without new requests, n queued ones are taken within ceil(n / 10) wake-ups; failed InitCurl calls only speed this up. */
  lemma Drains(s: State, actions: seq<Action>, t: State)
    requires Inv(s) && QuietRun(s, actions, t) && !LoopHasReq(s.loop)
    requires t.wakes - s.wakes >= (|s.requests| + MAX_PROCESS - 1) / MAX_PROCESS
    ensures t.requests == []
  {
    hide Inv, QuietRun;
    QuietDrains(s, actions, t, |s.requests| + MAX_PROCESS * s.wakes);
  }

  /** A wake-up posted is not lost: it stays posted until the loop thread acts on it. */
  lemma StaysPosted(s: State, a: Action)
    requires s.posted && Do(s, a).Some?
    ensures Do(s, a).value.posted || (a.WakeUp? && Do(s, a).value.loop.PerfWait?)
  {}

  /** Every frame that finds requests posts a wake-up, which the idle loop thread can then take. */
  lemma FramePosts(s: State)
    requires s.game.GameIdle? && s.requests != []
    ensures Do(s, FrameStart).Some? && Do(s, FrameStart).value.posted
    ensures s.loop.LoopIdle? ==> Do(Do(s, FrameStart).value, WakeUp).Some?
  {}

  // ----- delivery -----

  /** The frame hook finds a completed request. */
  predicate Finds(s: State, a: Action) {
    s.game.FrameMiddle? && a.GameStep? && s.completed != []
  }

  /** How many times the frame hook finds one. */
  ghost function Found(s: State, actions: seq<Action>): nat
    decreases |actions|
  {
    if actions == [] || Do(s, actions[0]).None? then 0
    else (if Finds(s, actions[0]) then 1 else 0) + Found(Do(s, actions[0]).value, actions[1..])
  }

  /** A request found and not yet given to OnCompleted. */
  function Owed(g: Game): nat {
    if g.CompWait? || g.CompHeld? || g.CompPopped? then 1 else 0
  }

  lemma FindStep(s: State, a: Action)
    requires Do(s, a).Some?
    ensures var t := Do(s, a).value;
            |t.delivered| + Owed(t.game) == |s.delivered| + Owed(s.game) + (if Finds(s, a) then 1 else 0) && s.done <= t.done
  {
    hide GameDo;
    if OfGame(a) {
      FindGameStep(s, a);
    }
  }

  lemma FindGameStep(s: State, a: Action)
    requires GameDo(s, a).Some?
    ensures var t := GameDo(s, a).value;
            |t.delivered| + Owed(t.game) == |s.delivered| + Owed(s.game) + (if Finds(s, a) then 1 else 0) && t.done == s.done
  {}

  lemma {:induction false} FoundCounts(s: State, actions: seq<Action>, t: State)
    requires Run(s, actions, t)
    ensures |t.delivered| + Owed(t.game) == |s.delivered| + Owed(s.game) + Found(s, actions) && s.done <= t.done
    decreases |actions|
  {
    hide Do, Owed, Finds;
    if actions != [] {
      FindStep(s, actions[0]);
      FoundCounts(Do(s, actions[0]).value, actions[1..], t);
    }
  }

  /**
    Each time the frame hook finds a completed request it delivers one, in the order of completion. So
    n completed requests are delivered by n frames that find one, whatever else happens.
   */
  lemma DeliversFound(s: State, actions: seq<Action>, t: State)
    requires Inv(s) && Run(s, actions, t) && Owed(s.game) == Owed(t.game) == 0
    ensures |s.delivered| + Found(s, actions) <= |t.done| && t.delivered == t.done[..|s.delivered| + Found(s, actions)]
    ensures Found(s, actions) >= |s.completed| ==> s.delivered + s.completed <= t.delivered
  {
    hide Inv, Run, Do;
    FoundCounts(s, actions, t);
    RunInv(s, actions, t);
    InvOrder(s);
    InvOrder(t);
  }

  lemma InvOrder(s: State)
    requires Inv(s)
    ensures DeliversInOrder(s)
  {}

  /** The rest of one frame: the game thread gets to the end of the hook. */
  ghost predicate FrameRun(s: State, actions: seq<Action>, t: State)
    decreases |actions|
  {
    if actions == [] then s == t && s.game.GameIdle?
    else !s.game.GameIdle? && Do(s, actions[0]).Some? && FrameRun(Do(s, actions[0]).value, actions[1..], t)
  }

  /** Past the point where the hook looks into the completed queue. */
  predicate Looked(g: Game) {
    GameHasComp(g) || g.CompWait? || g.GameIdle?
  }

  lemma LookStep(s: State, a: Action)
    requires Do(s, a).Some?
    ensures var t := Do(s, a).value;
            && (Looked(s.game) && !s.game.GameIdle? ==> Looked(t.game) && !Finds(s, a))
            && (s.game.FrameMiddle? && s.completed != [] ==>
                  if Finds(s, a) then Looked(t.game) else t.game.FrameMiddle? && t.completed != [])
  {}

  lemma {:induction false} FrameFinds(s: State, actions: seq<Action>, t: State)
    requires FrameRun(s, actions, t)
    ensures Run(s, actions, t) && t.game.GameIdle?
    ensures Looked(s.game) ==> Found(s, actions) == 0
    ensures s.game.FrameMiddle? && s.completed != [] ==> Found(s, actions) == 1
    decreases |actions|
  {
    hide Do, Finds, Looked;
    if actions != [] {
      LookStep(s, actions[0]);
      FrameFinds(Do(s, actions[0]).value, actions[1..], t);
    }
  }

  /** A frame that finds completed requests delivers the oldest, and leaves the others and those that arrive meanwhile. */
  lemma FrameDelivers(s: State, actions: seq<Action>, t: State)
    requires Inv(s) && FrameRun(s, actions, t) && s.game.FrameMiddle? && s.completed != []
    ensures t.delivered == s.delivered + [s.completed[0]]
    ensures s.done <= t.done && t.completed == s.completed[1..] + t.done[|s.done|..]
  {
    hide Inv, Run, Do, FrameRun;
    FrameFinds(s, actions, t);
    FoundCounts(s, actions, t);
    RunInv(s, actions, t);
    InvOrder(s);
    InvOrder(t);
    assert s.delivered + Popping(s.game) == s.delivered && t.delivered + Popping(t.game) == t.delivered;
    OneFurther(s.delivered, s.completed, t.delivered, t.completed);
  }

  /** Of a longer row one more is on the left. */
  lemma OneFurther(a: seq<nat>, b: seq<nat>, a': seq<nat>, b': seq<nat>)
    requires a + b <= a' + b' && |a'| == |a| + 1 && b != []
    ensures a' == a + [b[0]] && b' == b[1..] + (a' + b')[|a + b|..]
  {
    assert (a' + b')[..|a + b|] == a + b;
    assert a' == (a' + b')[..|a'|] == (a + b)[..|a| + 1];
    assert b' == (a' + b')[|a'|..];
  }

  /** And every such frame can get to its end, also without another step of the loop thread once that is out of the lock. */
  lemma FrameEnds(s: State) returns (t: State)
    requires Inv(s) && s.game.FrameMiddle? && s.completed != [] && !LoopHasComp(s.loop)
    ensures FrameRun(s, [GameStep, GameStep, GameStep, GameStep, CallReturn, GameStep], t)
  {
    hide Conserved, InOrder, EntersInOrder, Delivers, DeliversInOrder, Counts, StillThere, LoopDo, LoopHasReq;
    var s1 := Do(s, GameStep).value;
    var s2 := Do(s1, GameStep).value;
    var s3 := Do(s2, GameStep).value;
    var s4 := Do(s3, GameStep).value;
    var s5 := Do(s4, CallReturn).value;
    t := Do(s5, GameStep).value;
    hide Do;
    FrameCons(s5, GameStep, t, [], t);
    FrameCons(s4, CallReturn, s5, [GameStep], t);
    FrameCons(s3, GameStep, s4, [CallReturn, GameStep], t);
    FrameCons(s2, GameStep, s3, [GameStep, CallReturn, GameStep], t);
    FrameCons(s1, GameStep, s2, [GameStep, GameStep, CallReturn, GameStep], t);
    FrameCons(s, GameStep, s1, [GameStep, GameStep, GameStep, CallReturn, GameStep], t);
  }

  lemma FrameCons(s: State, a: Action, u: State, more: seq<Action>, t: State)
    requires !s.game.GameIdle? && Do(s, a) == Some(u) && FrameRun(u, more, t)
    ensures FrameRun(s, [a] + more, t)
  {
    hide Do;
    assert ([a] + more)[1..] == more;
  }

  // ----- completion -----

  function Transfers(actions: seq<Action>): nat {
    if actions == [] then 0 else (if actions[0].TransferDone? then 1 else 0) + Transfers(actions[1..])
  }

  /** A transfer that is finished and not yet in the completed queue. */
  function Finishing(l: Loop): nat {
    if l.DoneWait? || l.DoneHeld? then 1 else 0
  }

  lemma TransferStep(s: State, a: Action)
    requires Do(s, a).Some?
    ensures var t := Do(s, a).value;
            |t.done| + Finishing(t.loop) == |s.done| + Finishing(s.loop) + if a.TransferDone? then 1 else 0
  {}

  /** Every transfer that finishes is put into the completed queue, once. */
  lemma {:induction false} TransfersComplete(s: State, actions: seq<Action>, t: State)
    requires Run(s, actions, t)
    ensures |t.done| + Finishing(t.loop) == |s.done| + Finishing(s.loop) + Transfers(actions)
    decreases |actions|
  {
    hide Do, Finishing;
    if actions != [] {
      TransferStep(s, actions[0]);
      TransfersComplete(Do(s, actions[0]).value, actions[1..], t);
    }
  }

  /** A request that goes all the way: submitted, taken, transferred and delivered. */
  lemma WholeWay() returns (s: State)
    ensures Run(START, [Submit, GameStep, GameStep, GameStep, FrameStart, GameStep] + [WakeUp, LoopStep, LoopStep, InitOk, LoopStep] +
                       [Activity, TransferDone(0), LoopStep, LoopStep, LoopStep, NoMoreDone] +
                       [FrameStart, GameStep, GameStep, GameStep, GameStep, CallReturn, GameStep], s)
    ensures s.delivered == [0] && s.made == 1 && s.freed == [0]
  {
    var a := START.(requests := [0], made := 1, posted := true);
    var b := a.(requests := [], posted := false, active := [0], taken := [0], entered := [0], wakes := 1);
    var c := b.(active := [], completed := [0], done := [0]);
    s := c.(completed := [], delivered := [0], freed := [0]);
    Submitted(a);
    WokenUp(a, b);
    Transferred(b, c);
    Hooked(c, s);
    hide Run;
    var w, x := [Submit, GameStep, GameStep, GameStep, FrameStart, GameStep], [WakeUp, LoopStep, LoopStep, InitOk, LoopStep];
    var y := [Activity, TransferDone(0), LoopStep, LoopStep, LoopStep, NoMoreDone];
    RunConcat(START, w, a, x, b);
    RunConcat(START, w + x, b, y, c);
    RunConcat(START, w + x + y, c, [FrameStart, GameStep, GameStep, GameStep, GameStep, CallReturn, GameStep], s);
  }

  lemma Submitted(a: State)
    requires a == START.(requests := [0], made := 1, posted := true)
    ensures Run(START, [Submit, GameStep, GameStep, GameStep, FrameStart, GameStep], a)
  {}

  lemma WokenUp(a: State, b: State)
    requires a == START.(requests := [0], made := 1, posted := true)
    requires b == a.(requests := [], posted := false, active := [0], taken := [0], entered := [0], wakes := 1)
    ensures Run(a, [WakeUp, LoopStep, LoopStep, InitOk, LoopStep], b)
  {}

  lemma Transferred(b: State, c: State)
    requires b.loop == LoopIdle && b.compLock == {} && b.active == [0] && b.completed == [] && b.done == []
    requires c == b.(active := [], completed := [0], done := [0])
    ensures Run(b, [Activity, TransferDone(0), LoopStep, LoopStep, LoopStep, NoMoreDone], c)
  {}

  lemma Hooked(c: State, s: State)
    requires c.game == GameIdle && c.compLock == {} && c.requests == [] && c.completed == [0] && c.delivered == [] && c.freed == []
    requires s == c.(completed := [], delivered := [0], freed := [0])
    ensures Run(c, [FrameStart, GameStep, GameStep, GameStep, GameStep, CallReturn, GameStep], s)
  {}

  lemma {:induction false} RunConcat(s: State, a: seq<Action>, t: State, b: seq<Action>, u: State)
    requires Run(s, a, t) && Run(t, b, u)
    ensures Run(s, a + b, u)
    decreases |a|
  {
    hide Do;
    if a == [] {
      assert a + b == b;
    } else {
      assert (a + b)[1..] == a[1..] + b;
      RunConcat(Do(s, a[0]).value, a[1..], t, b, u);
    }
  }

  // ----- a whole wake-up -----

  /** The steps of AsyncPerformRequests from the head of its loop, when no other thread has a turn. */
  function PerfActions(q: seq<nat>, ok: nat -> bool, count: nat): seq<Action> {
    if q == [] || count >= MAX_PROCESS then [LoopStep]
    else [LoopStep, if ok(q[0]) then InitOk else InitFails] + PerfActions(q[1..], ok, if ok(q[0]) then count + 1 else count)
  }

  lemma PerfEnds(s: State)
    requires s.loop.Perf? && (s.requests == [] || s.loop.count >= MAX_PROCESS)
    ensures Do(s, LoopStep) == Some(s.(loop := LoopIdle, reqLock := {}, wakes := s.wakes + 1))
  {}

  /** One turn of its loop. */
  function PerfTurn(s: State, ok: nat -> bool): State
    requires s.loop.Perf? && s.requests != []
  {
    var c := s.requests[0];
    var u := s.(requests := s.requests[1..], taken := s.taken + [c]);
    if ok(c) then u.(loop := Perf(s.loop.count + 1, s.loop.popped + 1), active := s.active + [c], entered := s.entered + [c])
    else u.(loop := Perf(s.loop.count, s.loop.popped + 1), freed := s.freed + [c])
  }

  lemma PerfTurns(s: State, ok: nat -> bool) returns (u: State)
    requires s.loop.Perf? && s.requests != [] && s.loop.count < MAX_PROCESS
    ensures Do(s, LoopStep) == Some(u) && Do(u, if ok(s.requests[0]) then InitOk else InitFails) == Some(PerfTurn(s, ok))
  {
    u := Do(s, LoopStep).value;
  }

  /** They are what the method above does: the same requests taken, the same handed to curl. */
  lemma {:induction false} PerfRuns(s: State, ok: nat -> bool, count: nat, popped: nat) returns (t: State)
    requires s.loop == Perf(count, popped)
    ensures Run(s, PerfActions(s.requests, ok, count), t)
    ensures var k := Taken(s.requests, ok, count);
            t.requests == s.requests[k..] && t.taken == s.taken + s.requests[..k] && t.entered == s.entered + Keep(s.requests[..k], ok)
    ensures t.loop == LoopIdle && t.reqLock == {} && t.wakes == s.wakes + 1
    decreases |s.requests|
  {
    hide Do, Run, Keep;
    var q := s.requests;
    if q == [] || count >= MAX_PROCESS {
      PerfEnds(s);
      t := Do(s, LoopStep).value;
      RunOne(s, LoopStep, t);
      KeepNone(q, ok);
    } else {
      var n := if ok(q[0]) then count + 1 else count;
      var v := PerfTurn(s, ok);
      var u := PerfTurns(s, ok);
      t := PerfRuns(v, ok, n, popped + 1);
      var k := Taken(q[1..], ok, n);
      Rejoin(s.taken, s.entered, q, k, ok);
      RunTwo(s, LoopStep, u, if ok(q[0]) then InitOk else InitFails, v, PerfActions(q[1..], ok, n), t);
    }
  }

  lemma KeepNone(q: seq<nat>, ok: nat -> bool)
    ensures q[..0] == [] && Keep(q[..0], ok) == []
  {}

  lemma Rejoin(taken: seq<nat>, entered: seq<nat>, q: seq<nat>, k: nat, ok: nat -> bool)
    requires q != [] && k < |q|
    ensures taken + [q[0]] + q[1..][..k] == taken + q[..k + 1] && q[1..][k..] == q[k + 1..]
    ensures entered + (if ok(q[0]) then [q[0]] else []) + Keep(q[1..][..k], ok) == entered + Keep(q[..k + 1], ok)
  {
    hide Keep;
    assert q[..k + 1] == [q[0]] + q[1..][..k];
    KeepHead(q[0], q[1..][..k], ok);
  }

  lemma RunOne(s: State, a: Action, t: State)
    requires Do(s, a) == Some(t)
    ensures Run(s, [a], t)
  {
    hide Do;
    assert Run(t, [], t);
    assert [a][1..] == [];
  }

  lemma RunTwo(s: State, a: Action, u: State, b: Action, v: State, more: seq<Action>, t: State)
    requires Do(s, a) == Some(u) && Do(u, b) == Some(v) && Run(v, more, t)
    ensures Run(s, [a, b] + more, t)
  {
    hide Do;
    assert ([a, b] + more)[1..] == [b] + more && ([b] + more)[1..] == more;
    assert Run(u, [b] + more, t);
  }
}
