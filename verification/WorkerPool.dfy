/**
 The worker pools of gc (gc.go): `pmap` hands items over an unbuffered channel, the sweep
 goes through a buffered one. A producer sends the items in order and closes the channel;
 workers receive, work and leave when the channel is closed and empty; the caller waits
 for all of them. Any interleaving, any number of workers.
 */
module WorkerPool {

  datatype Worker<T> = Idle | Busy(item: T) | Left

  /** `sent` items of the input have gone into the channel; `done` have been worked on. */
  datatype State<T> = State(sent: nat, queue: seq<T>, closed: bool, workers: seq<Worker<T>>, done: seq<T>)

  datatype Step =
    | Send                  // into free buffer space
    | HandOver(w: nat)      // straight to a waiting worker
    | Receive(w: nat) | Finish(w: nat) | Close | Leave(w: nat)

  predicate Enabled<T>(items: seq<T>, room: nat, s: State<T>, step: Step) {
    match step
    case Send => s.sent < |items| && !s.closed && |s.queue| < room
    case HandOver(w) => s.sent < |items| && !s.closed && |s.queue| == 0 && w < |s.workers| && s.workers[w].Idle?
    case Receive(w) => |s.queue| > 0 && w < |s.workers| && s.workers[w].Idle?
    case Finish(w) => w < |s.workers| && s.workers[w].Busy?
    case Close => s.sent == |items| && !s.closed
    case Leave(w) => s.closed && |s.queue| == 0 && w < |s.workers| && s.workers[w].Idle?
  }

  function Next<T>(items: seq<T>, room: nat, s: State<T>, step: Step): State<T>
    requires Enabled(items, room, s, step)
  {
    match step
    case Send => s.(sent := s.sent + 1, queue := s.queue + [items[s.sent]])
    case HandOver(w) => s.(sent := s.sent + 1, workers := s.workers[w := Busy(items[s.sent])])
    case Receive(w) => s.(queue := s.queue[1..], workers := s.workers[w := Busy(s.queue[0])])
    case Finish(w) => s.(workers := s.workers[w := Idle], done := s.done + [s.workers[w].item])
    case Close => s.(closed := true)
    case Leave(w) => s.(workers := s.workers[w := Left])
  }

  function Init<T>(n: nat): State<T> {
    State(0, [], false, seq(n, _ => Idle), [])
  }

  /** The caller's Wait returns. */
  ghost predicate Returned<T>(s: State<T>) {
    s.closed && forall w | 0 <= w < |s.workers| :: s.workers[w].Left?
  }

  /** How often `x` is being worked on. */
  ghost function InHand<T>(workers: seq<Worker<T>>, x: T): nat {
    if workers == [] then 0 else InHand(workers[..|workers| - 1], x) + Hand(workers[|workers| - 1], x)
  }

  ghost function Hand<T>(w: Worker<T>, x: T): nat {
    if w == Busy(x) then 1 else 0
  }

  lemma {:induction false} InHandUpdate<T>(workers: seq<Worker<T>>, i: nat, w: Worker<T>, x: T)
    requires i < |workers|
    ensures InHand(workers[i := w], x) + Hand(workers[i], x) == InHand(workers, x) + Hand(w, x)
  {
    var n, now := |workers| - 1, workers[i := w];
    if i == n {
      assert now[..n] == workers[..n];
    } else {
      InHandUpdate(workers[..n], i, w, x);
      assert now[..n] == workers[..n][i := w];
    }
  }

  /** Every sent item is queued, in hand, or done: nothing is lost or done twice. */
  ghost predicate Conserved<T>(sent: seq<T>, queue: seq<T>, workers: seq<Worker<T>>, done: seq<T>, x: T) {
    multiset(sent)[x] == multiset(queue)[x] + InHand(workers, x) + multiset(done)[x]
  }

  ghost predicate Inv<T(!new)>(items: seq<T>, n: nat, s: State<T>) {
    && s.sent <= |items| && |s.workers| == n
    && (forall x :: Conserved(items[..s.sent], s.queue, s.workers, s.done, x))
    && (s.closed ==> s.sent == |items|)
    && (forall w {:trigger s.workers[w]} | 0 <= w < n && s.workers[w].Left? :: s.closed && |s.queue| == 0)
  }

  lemma {:induction false} NoneInHand<T>(workers: seq<Worker<T>>, x: T)
    requires forall w | 0 <= w < |workers| :: !workers[w].Busy?
    ensures InHand(workers, x) == 0
  {
    if workers != [] {
      NoneInHand(workers[..|workers| - 1], x);
    }
  }

  lemma AddOne<T>(s: seq<T>, y: T, x: T)
    ensures multiset(s + [y])[x] == multiset(s)[x] + (if x == y then 1 else 0)
  {}

  lemma TakeOne<T>(s: seq<T>, x: T)
    requires s != []
    ensures multiset(s)[x] == multiset(s[1..])[x] + (if x == s[0] then 1 else 0)
  {
    assert s == [s[0]] + s[1..];
  }

  lemma SendConserves<T>(items: seq<T>, room: nat, s: State<T>, step: Step, x: T)
    requires s.sent <= |items| && Enabled(items, room, s, step) && (step.Send? || step.HandOver?)
    requires Conserved(items[..s.sent], s.queue, s.workers, s.done, x)
    ensures var t := Next(items, room, s, step);
            t.sent <= |items| && Conserved(items[..t.sent], t.queue, t.workers, t.done, x)
  {
    var item := items[s.sent];
    assert items[..s.sent + 1] == items[..s.sent] + [item];
    AddOne(items[..s.sent], item, x);
    if step.Send? {
      AddOne(s.queue, item, x);
    } else {
      InHandUpdate(s.workers, step.w, Busy(item), x);
    }
  }

  lemma WorkConserves<T>(items: seq<T>, room: nat, s: State<T>, step: Step, x: T)
    requires s.sent <= |items| && Enabled(items, room, s, step) && !step.Send? && !step.HandOver?
    requires Conserved(items[..s.sent], s.queue, s.workers, s.done, x)
    ensures var t := Next(items, room, s, step);
            t.sent == s.sent && Conserved(items[..t.sent], t.queue, t.workers, t.done, x)
  {
    match step
    case Receive(w) =>
      InHandUpdate(s.workers, w, Busy(s.queue[0]), x);
      TakeOne(s.queue, x);
    case Finish(w) =>
      InHandUpdate(s.workers, w, Idle, x);
      AddOne(s.done, s.workers[w].item, x);
    case Leave(w) => InHandUpdate(s.workers, w, Left, x);
    case Close =>
  }

  lemma StepKeeps<T(!new)>(items: seq<T>, room: nat, n: nat, s: State<T>, step: Step)
    requires Inv(items, n, s) && Enabled(items, room, s, step)
    ensures Inv(items, n, Next(items, room, s, step))
  {
    var t := Next(items, room, s, step);
    forall x
      ensures Conserved(items[..t.sent], t.queue, t.workers, t.done, x)
    {
      if step.Send? || step.HandOver? {
        SendConserves(items, room, s, step, x);
      } else {
        WorkConserves(items, room, s, step, x);
      }
    }
  }

  ghost predicate Execution<T>(items: seq<T>, room: nat, n: nat, states: seq<State<T>>, steps: seq<Step>) {
    && |states| == |steps| + 1 && states[0] == Init(n)
    && forall i {:trigger steps[i]} | 0 <= i < |steps| ::
         Enabled(items, room, states[i], steps[i]) && states[i + 1] == Next(items, room, states[i], steps[i])
  }

  lemma {:induction false} AlwaysInv<T(!new)>(items: seq<T>, room: nat, n: nat, states: seq<State<T>>,
                                              steps: seq<Step>, i: nat)
    requires Execution(items, room, n, states, steps) && i < |states|
    ensures Inv(items, n, states[i])
  {
    if i == 0 {
      forall x
        ensures Conserved(items[..0], [], states[0].workers, [], x)
      {
        NoneInHand(states[0].workers, x);
      }
    } else {
      AlwaysInv(items, room, n, states, steps, i - 1);
      assert Enabled(items, room, states[i - 1], steps[i - 1]);
      StepKeeps(items, room, n, states[i - 1], steps[i - 1]);
    }
  }

  /** When the pool returns, each item has been worked on exactly once. */
  lemma EachOnce<T(!new)>(items: seq<T>, room: nat, n: nat, states: seq<State<T>>, steps: seq<Step>, i: nat)
    requires n > 0 && Execution(items, room, n, states, steps) && i < |states| && Returned(states[i])
    ensures multiset(states[i].done) == multiset(items)
  {
    AlwaysInv(items, room, n, states, steps, i);
    var s := states[i];
    assert s.workers[0].Left? && |s.queue| == 0;
    assert items[..s.sent] == items;
    forall x
      ensures multiset(s.done)[x] == multiset(items)[x]
    {
      NoneInHand(s.workers, x);
      assert Conserved(items[..s.sent], s.queue, s.workers, s.done, x);
    }
  }

  /** With at least one worker the pool never gets stuck before it returns. */
  lemma NeverStuck<T(!new)>(items: seq<T>, room: nat, n: nat, states: seq<State<T>>, steps: seq<Step>, i: nat)
    returns (step: Step)
    requires n > 0 && Execution(items, room, n, states, steps) && i < |states| && !Returned(states[i])
    ensures Enabled(items, room, states[i], step)
  {
    AlwaysInv(items, room, n, states, steps, i);
    var s := states[i];
    if w :| 0 <= w < n && s.workers[w].Busy? {
      step := Finish(w);
    } else if s.sent == |items| && !s.closed {
      step := Close;
    } else {
      assert exists w :: 0 <= w < n && s.workers[w].Idle? by {
        assert s.closed || !s.workers[0].Left?;
      }
      var w :| 0 <= w < n && s.workers[w].Idle?;
      step := if |s.queue| > 0 then Receive(w) else if s.closed then Leave(w) else HandOver(w);
    }
  }
}
