/**
 How pieces get into the cache and out again (`getPiece` in sftp.go, `fetch` and
 `catUnderSem` in repack.go): foreground reads and prefetches interleave freely, collapse
 per hash through singleflight, and the foreground reads back from a cache that may have
 evicted the entry meanwhile. Each cache call, each singleflight entry or exit and each
 store operation is one step; any number of calls may be pending.

 singleflight is taken by its documented contract: one leader per key at a time, everyone
 else waits for that leader and gets its outcome.
 */
module FetchProtocol {
  import opened Streams
  import opened Stores
  import opened Recency

  datatype Kind = Foreground | Prefetch

  datatype Pc =
    | Begin                                 // foreground: first cache.Get
    | Join                                  // at group.Do
    | Waiting(leader: nat)                  // follower inside group.Do
    | Leading                               // leader: the inner cache.Get
    | Queued                                // leader: before the semaphore and the GET
    | Fetching                              // leader: GET in flight
    | Storing(data: Bytes)                  // leader: GET done, before cache.Put
    | Leaving(ok: bool)                     // leader: function returned (ok) or panicked
    | Reading(leader: nat)                  // foreground: cache.Get after group.Do
    | Done(result: Option<Bytes>, leader: nat)
    | Threw

  /** One call of getPiece/fetch, or one prefetch goroutine. `touch` and `failed` are
      history: where in the cache's touch log this leader last touched its key, and
      whether its GET failed. */
  datatype Call = Call(kind: Kind, group: nat, hash: string, pc: Pc, touch: nat, failed: bool)

  type Touched = Entry<string, Bytes>

  /** `touches` is history: all touches of the cache so far. */
  datatype State = State(cache: seq<Touched>, touches: seq<Touched>, calls: map<nat, Call>,
                         inflight: map<(nat, string), nat>)

  datatype Step =
    | Start(id: nat, kind: Kind, group: nat, hash: string)
    | First(id: nat)
    | Enter(id: nat)
    | Check(id: nat)
    | Acquire(id: nat)
    | GetOk(id: nat, data: Bytes)
    | GetFail(id: nat)
    | PutBack(id: nat)
    | Leave(id: nat)
    | Wake(id: nat)
    | Read(id: nat)

  /** Inside group.Do as the leader. */
  predicate InFlight(pc: Pc) {
    pc.Leading? || pc.Queued? || pc.Fetching? || pc.Storing? || pc.Leaving?
  }

  /** Between acquiring and releasing the shared semaphore (repack only). */
  predicate HoldsToken(pc: Pc) {
    pc.Fetching? || pc.Storing?
  }

  /** Which steps are possible. `room` says whether the semaphore has a free token; the
      stored object may be missing or the GET may fail at any time. */
  ghost predicate Enabled(s: State, step: Step, h: Hasher, room: bool) {
    if step.Start? then step.id !in s.calls
    else step.id in s.calls && MayTake(s, step, s.calls[step.id], h, room)
  }

  ghost predicate MayTake(s: State, step: Step, c: Call, h: Hasher, room: bool) {
    match step
    case Start(_, _, _, _) => false
    case First(_) => c.pc.Begin?
    case Enter(_) => c.pc.Join?
    case Check(_) => c.pc.Leading?
    case Acquire(_) => c.pc.Queued? && room
    case GetOk(_, data) => c.pc.Fetching? && h(data) == c.hash
    case GetFail(_) => c.pc.Fetching?
    case PutBack(_) => c.pc.Storing?
    case Leave(_) => c.pc.Leaving?
    case Wake(_) => c.pc.Waiting? && c.pc.leader in s.calls && !InFlight(s.calls[c.pc.leader].pc)
    case Read(_) => c.pc.Reading?
  }

  function Key(c: Call): (nat, string) {
    (c.group, c.hash)
  }

  /** The foreground goes on to read the cache, a prefetch is finished. */
  function AfterDo(c: Call, leader: nat): Pc {
    if c.kind.Foreground? then Reading(leader) else Done(None, leader)
  }

  function Cached(s: State, cap: int, op: Op<string, Bytes>): State {
    s.(cache := Apply(s.cache, cap, op), touches := s.touches + TouchOf(s.cache, op))
  }

  function Set(s: State, id: nat, c: Call): State {
    s.(calls := s.calls[id := c])
  }

  function Next(s: State, step: Step, cap: int): State
    requires step.Start? || step.id in s.calls
  {
    if step.Start? then
      Set(s, step.id, Call(step.kind, step.group, step.hash, if step.kind.Foreground? then Begin else Join, 0, false))
    else
      var id, c := step.id, s.calls[step.id];
      match step
      case First(_) =>
        var v := Lookup(s.cache, c.hash);
        Set(Cached(s, cap, Op.Get(c.hash)), id, c.(pc := if v.Some? then Done(v, id) else Join))
      case Enter(_) =>
        if Key(c) in s.inflight then Set(s, id, c.(pc := Waiting(s.inflight[Key(c)])))
        else Set(s, id, c.(pc := Leading)).(inflight := s.inflight[Key(c) := id])
      case Check(_) =>
        if Lookup(s.cache, c.hash).Some?
        then Set(Cached(s, cap, Op.Get(c.hash)), id, c.(pc := Leaving(true), touch := |s.touches| + 1))
        else Set(s, id, c.(pc := Queued))
      case Acquire(_) => Set(s, id, c.(pc := Fetching))
      case GetOk(_, data) => Set(s, id, c.(pc := Storing(data)))
      case GetFail(_) => Set(s, id, c.(pc := Leaving(c.kind.Prefetch?), failed := true))
      case PutBack(_) =>
        var data := if c.pc.Storing? then c.pc.data else [];
        Set(Cached(s, cap, Op.Put(c.hash, data)), id, c.(pc := Leaving(true), touch := |s.touches| + 1))
      case Leave(_) =>
        Set(s, id, c.(pc := if c.pc == Leaving(true) then AfterDo(c, id) else Threw))
          .(inflight := s.inflight - {Key(c)})
      case Wake(_) =>
        var leader := if c.pc.Waiting? then c.pc.leader else id;
        Set(s, id, c.(pc := if leader in s.calls && s.calls[leader].pc.Threw? then Threw else AfterDo(c, leader)))
      case Read(_) =>
        var leader := if c.pc.Reading? then c.pc.leader else id;
        Set(Cached(s, cap, Op.Get(c.hash)), id, c.(pc := Done(Lookup(s.cache, c.hash), leader)))
      case Start(_, _, _, _) => s
  }

  const Init: State := State([], [], map[], map[])

  // ---------- What every state keeps

  ghost predicate AllExact(l: seq<Touched>, h: Hasher) {
    forall i {:trigger l[i]} | 0 <= i < |l| :: h(l[i].val) == l[i].key
  }

  /** The other keys touched from position `from` of the log on. */
  ghost function Others(touches: seq<Touched>, from: nat, hash: string): set<string>
    requires from <= |touches|
  {
    Keys(touches[from..]) - {hash}
  }

  /** The GET of a prefetch failed, and nobody was told. */
  ghost predicate Hushed(c: Call) {
    c.failed && c.kind.Prefetch?
  }

  /** Why a foreground call may find its piece missing: its leader was a prefetch whose GET
      failed, or at least `cap` distinct other keys were touched after the leader's last
      touch. */
  ghost predicate Excused(touches: seq<Touched>, leader: Call, cap: int) {
    Hushed(leader) || (0 < leader.touch <= |touches| && |Others(touches, leader.touch, leader.hash)| >= cap)
  }

  /** Past the leader's part in group.Do. */
  ghost predicate Finished(pc: Pc) {
    pc.Leaving? || pc.Reading? || pc.Done? || pc.Threw?
  }

  /** A leader that is still inside group.Do, or has touched its key, or failed. */
  ghost predicate Led(s: State, leader: nat, c: Call) {
    && leader in s.calls && Key(s.calls[leader]) == Key(c)
    && (InFlight(s.calls[leader].pc) || s.calls[leader].touch > 0 || s.calls[leader].failed)
  }

  /** Some foreground call of this group and hash had its GET fail. */
  ghost predicate SomeFailed(s: State, k: (nat, string)) {
    exists l {:trigger s.calls[l]} | l in s.calls ::
      Key(s.calls[l]) == k && s.calls[l].failed && s.calls[l].kind.Foreground?
  }

  ghost predicate CallOk(s: State, id: nat, c: Call, cap: int, h: Hasher) {
    && (InFlight(c.pc) <==> Key(c) in s.inflight && s.inflight[Key(c)] == id)
    && (c.touch > 0 ==> c.touch <= |s.touches| && s.touches[c.touch - 1].key == c.hash)
    && (c.touch > 0 || c.failed ==> Finished(c.pc))
    && (c.failed && c.kind.Foreground? ==> c.pc == Leaving(false) || c.pc.Threw?)
    && match c.pc
       case Waiting(leader) => Led(s, leader, c)
       case Storing(data) => h(data) == c.hash
       case Leaving(ok) => (c.touch > 0 || c.failed) && (!ok ==> c.failed && c.kind.Foreground?)
       case Threw => SomeFailed(s, Key(c))
       case Reading(leader) => Led(s, leader, c) && !InFlight(s.calls[leader].pc) && !s.calls[leader].pc.Threw?
       case Done(result, leader) =>
         && (result.Some? ==> h(result.value) == c.hash)
         && (c.kind.Foreground? && result.None? ==>
               leader in s.calls && s.calls[leader].hash == c.hash && Excused(s.touches, s.calls[leader], cap))
       case _ => true
  }

  /** Cache and log hold only true bytes, and the cache is the most recent part of the log. */
  ghost predicate CacheOk(t: State, cap: int, h: Hasher) {
    AllExact(t.cache, h) && AllExact(t.touches, h) && t.cache == Recency.Take(Unbounded(t.touches), cap)
  }

  ghost predicate Inv(s: State, cap: int, h: Hasher) {
    && CacheOk(s, cap, h)
    && (forall k {:trigger s.inflight[k]} | k in s.inflight ::
          s.inflight[k] in s.calls && Key(s.calls[s.inflight[k]]) == k)
    && (forall id {:trigger s.calls[id]} | id in s.calls :: CallOk(s, id, s.calls[id], cap, h))
  }

  // ---------- The cache

  lemma {:induction false} LookupExact(l: seq<Touched>, k: string, h: Hasher)
    requires AllExact(l, h)
    ensures Lookup(l, k).Some? ==> h(Lookup(l, k).value) == k
  {
    if l != [] && l[0].key != k {
      assert forall i | 0 <= i < |l[1..]| :: l[1..][i] == l[i + 1];
      LookupExact(l[1..], k, h);
    }
  }

  lemma {:induction false} WithoutExact(l: seq<Touched>, k: string, h: Hasher)
    requires AllExact(l, h)
    ensures AllExact(Without(l, k), h)
  {
    if l != [] {
      assert forall i | 0 <= i < |l[1..]| :: l[1..][i] == l[i + 1];
      WithoutExact(l[1..], k, h);
    }
  }

  /** A cache call keeps the cache exact, and logs at most one touch, of its key. */
  lemma CachedOk(s: State, cap: int, op: Op<string, Bytes>, h: Hasher)
    requires CacheOk(s, cap, h)
    requires op.Put? ==> h(op.val) == op.key
    ensures var t := Cached(s, cap, op);
            && CacheOk(t, cap, h)
            && s.touches <= t.touches
            && (op.Put? || Lookup(s.cache, op.key).Some? ==>
                  |t.touches| == |s.touches| + 1 && t.touches[|s.touches|].key == op.key)
  {
    ApplyExact(s.cache, cap, op, h);
    ApplyTakes(cap, s.touches, op);
  }

  lemma ApplyExact(l: seq<Touched>, cap: int, op: Op<string, Bytes>, h: Hasher)
    requires AllExact(l, h) && (op.Put? ==> h(op.val) == op.key)
    ensures AllExact(Apply(l, cap, op), h) && AllExact(TouchOf(l, op), h)
  {
    LookupExact(l, op.key, h);
    WithoutExact(l, op.key, h);
  }

  lemma {:induction false} SinceAfter(touches: seq<Touched>, from: nat, hash: string)
    requires 0 < from <= |touches| && touches[from - 1].key == hash
    ensures Since(touches, hash) <= Others(touches, from, hash)
  {
    var n := |touches| - 1;
    if touches[n].key != hash {
      SinceAfter(touches[..n], from, hash);
      assert touches[from..] == touches[..n][from..] + [touches[n]];
      KeysAppend(touches[..n][from..], [touches[n]]);
      assert [touches[n]][0] == touches[n];
    }
  }

  lemma KeysAppend(a: seq<Touched>, b: seq<Touched>)
    ensures Keys(a + b) == Keys(a) + Keys(b)
  {
    forall x
      ensures x in Keys(a + b) <==> x in Keys(a) + Keys(b)
    {
      HasKeys(a, x);
      HasKeys(b, x);
      HasKeys(a + b, x);
      HasAppend(a, b, x);
    }
  }

  lemma Bigger<T>(a: set<T>, b: set<T>)
    requires a <= b
    ensures |a| <= |b|
  {
    assert b == a + (b - a);
  }

  /** A key that some call touched and the cache no longer holds has had `cap` others
      touched after it. */
  lemma EvictedIsExcused(touches: seq<Touched>, leader: Call, cap: int)
    requires 0 < leader.touch <= |touches| && touches[leader.touch - 1].key == leader.hash
    requires Lookup(Recency.Take(Unbounded(touches), cap), leader.hash).None?
    ensures Excused(touches, leader, cap)
  {
    var hash := leader.hash;
    LookupHas(Recency.Take(Unbounded(touches), cap), hash);
    RecentIff(cap, touches, hash);
    SinceAfter(touches, leader.touch, hash);
    Bigger(Since(touches, hash), Others(touches, leader.touch, hash));
  }

  lemma ExcusedStays(a: seq<Touched>, b: seq<Touched>, leader: Call, cap: int)
    requires a <= b && Excused(a, leader, cap)
    ensures Excused(b, leader, cap)
  {
    if !Hushed(leader) {
      var from := leader.touch;
      assert b[from..] == a[from..] + b[|a|..];
      KeysAppend(a[from..], b[|a|..]);
      Bigger(Others(a, from, leader.hash), Others(b, from, leader.hash));
    }
  }

  // ---------- One step keeps the invariant

  /** How one call's record may change. */
  ghost predicate Grows(s: State, id: nat, c: Call) {
    id in s.calls ==>
      var was := s.calls[id];
      && Key(c) == Key(was) && c.kind == was.kind
      && (was.touch == 0 || c.touch == was.touch) && (was.failed ==> c.failed)
      && (InFlight(was.pc) ==> InFlight(c.pc) || c.touch > 0 || c.failed)
      && (Finished(was.pc) && !InFlight(was.pc) ==> !InFlight(c.pc) && (c.pc.Threw? ==> was.pc.Threw?))
  }

  /** How the singleflight table may change in a step of call `id`. */
  ghost predicate TableStep(s: State, t: State, id: nat, k: (nat, string)) {
    || t.inflight == s.inflight
    || (k !in s.inflight && t.inflight == s.inflight[k := id])
    || (k in s.inflight && s.inflight[k] == id && t.inflight == s.inflight - {k})
  }

  ghost predicate Moves(s: State, t: State, id: nat, c: Call) {
    && t.calls == s.calls[id := c] && s.touches <= t.touches
    && Grows(s, id, c) && TableStep(s, t, id, Key(c))
  }

  lemma LedStays(s: State, t: State, id: nat, c: Call, leader: nat, d: Call)
    requires Moves(s, t, id, c) && Led(s, leader, d)
    ensures Led(t, leader, d)
    ensures id in s.calls && Finished(s.calls[leader].pc) && !InFlight(s.calls[leader].pc) ==>
              !InFlight(t.calls[leader].pc) && (t.calls[leader].pc.Threw? ==> s.calls[leader].pc.Threw?)
  {}

  lemma OtherKeeps(s: State, t: State, id: nat, c: Call, j: nat, cap: int, h: Hasher)
    requires Moves(s, t, id, c) && Inv(s, cap, h) && j in s.calls && j != id
    ensures CallOk(t, j, s.calls[j], cap, h)
  {
    var d := s.calls[j];
    assert CallOk(s, j, d, cap, h);
    match d.pc
    case Waiting(leader) => LedStays(s, t, id, c, leader, d);
    case Reading(leader) =>
      LedStays(s, t, id, c, leader, d);
      assert CallOk(s, leader, s.calls[leader], cap, h);
    case Threw => FailedStays(s, t, id, c, Key(d));
    case Done(result, leader) =>
      if d.kind.Foreground? && result.None? {
        assert CallOk(s, leader, s.calls[leader], cap, h);
        LeaderExcused(s, t, id, c, leader, cap);
      }
    case _ =>
  }

  lemma FailedStays(s: State, t: State, id: nat, c: Call, k: (nat, string))
    requires Moves(s, t, id, c) && SomeFailed(s, k)
    ensures SomeFailed(t, k)
  {
    var l :| l in s.calls && Key(s.calls[l]) == k && s.calls[l].failed && s.calls[l].kind.Foreground?;
    assert l in t.calls && Key(t.calls[l]) == k && t.calls[l].failed && t.calls[l].kind.Foreground?;
  }

  lemma LeaderExcused(s: State, t: State, id: nat, c: Call, leader: nat, cap: int)
    requires Moves(s, t, id, c) && leader in s.calls && Excused(s.touches, s.calls[leader], cap)
    ensures leader in t.calls && t.calls[leader].hash == s.calls[leader].hash
            && Excused(t.touches, t.calls[leader], cap)
  {
    ExcusedStays(s.touches, t.touches, s.calls[leader], cap);
  }

  /** What one step of call `id` must establish. */
  lemma Assemble(s: State, t: State, id: nat, cap: int, h: Hasher)
    requires Inv(s, cap, h) && id in t.calls && Moves(s, t, id, t.calls[id])
    requires CallOk(t, id, t.calls[id], cap, h) && CacheOk(t, cap, h)
    ensures Inv(t, cap, h)
  {
    forall j {:trigger t.calls[j]} | j in t.calls
      ensures CallOk(t, j, t.calls[j], cap, h)
    {
      if j != id {
        OtherKeeps(s, t, id, t.calls[id], j, cap, h);
      }
    }
  }

  lemma StartOk(s: State, step: Step, cap: int, h: Hasher)
    requires Inv(s, cap, h) && step.Start? && Enabled(s, step, h, true)
    ensures Inv(Next(s, step, cap), cap, h)
  {
    var k := (step.group, step.hash);
    if k in s.inflight {
      assert s.inflight[k] in s.calls;
    }
    Assemble(s, Next(s, step, cap), step.id, cap, h);
  }

  lemma FirstOk(s: State, step: Step, cap: int, h: Hasher)
    requires Inv(s, cap, h) && step.First? && Enabled(s, step, h, true)
    ensures Inv(Next(s, step, cap), cap, h)
  {
    var c := s.calls[step.id];
    assert CallOk(s, step.id, c, cap, h);
    CachedOk(s, cap, Op.Get(c.hash), h);
    LookupExact(s.cache, c.hash, h);
    Assemble(s, Next(s, step, cap), step.id, cap, h);
  }

  lemma EnterOk(s: State, step: Step, cap: int, h: Hasher)
    requires Inv(s, cap, h) && step.Enter? && Enabled(s, step, h, true)
    ensures Inv(Next(s, step, cap), cap, h)
  {
    var c := s.calls[step.id];
    assert CallOk(s, step.id, c, cap, h);
    if Key(c) in s.inflight {
      var leader := s.inflight[Key(c)];
      InflightIsLeader(s, Key(c), cap, h);
      assert leader != step.id;
    }
    Assemble(s, Next(s, step, cap), step.id, cap, h);
  }

  lemma CheckOk(s: State, step: Step, cap: int, h: Hasher)
    requires Inv(s, cap, h) && step.Check? && Enabled(s, step, h, true)
    ensures Inv(Next(s, step, cap), cap, h)
  {
    var c := s.calls[step.id];
    assert CallOk(s, step.id, c, cap, h);
    CachedOk(s, cap, Op.Get(c.hash), h);
    Assemble(s, Next(s, step, cap), step.id, cap, h);
  }

  lemma FetchOk(s: State, step: Step, cap: int, h: Hasher, room: bool)
    requires Inv(s, cap, h) && (step.Acquire? || step.GetOk? || step.GetFail?) && Enabled(s, step, h, room)
    ensures Inv(Next(s, step, cap), cap, h)
  {
    assert CallOk(s, step.id, s.calls[step.id], cap, h);
    Assemble(s, Next(s, step, cap), step.id, cap, h);
  }

  lemma PutBackOk(s: State, step: Step, cap: int, h: Hasher)
    requires Inv(s, cap, h) && step.PutBack? && Enabled(s, step, h, true)
    ensures Inv(Next(s, step, cap), cap, h)
  {
    var c := s.calls[step.id];
    assert CallOk(s, step.id, c, cap, h);
    CachedOk(s, cap, Op.Put(c.hash, c.pc.data), h);
    Assemble(s, Next(s, step, cap), step.id, cap, h);
  }

  lemma LeaveOk(s: State, step: Step, cap: int, h: Hasher)
    requires Inv(s, cap, h) && step.Leave? && Enabled(s, step, h, true)
    ensures Inv(Next(s, step, cap), cap, h)
  {
    assert CallOk(s, step.id, s.calls[step.id], cap, h);
    LeaveCall(s, step.id, cap, h);
    Assemble(s, Next(s, step, cap), step.id, cap, h);
  }

  lemma LeaveCall(s: State, id: nat, cap: int, h: Hasher)
    requires id in s.calls && s.calls[id].pc.Leaving? && CallOk(s, id, s.calls[id], cap, h)
    ensures var t := Next(s, Step.Leave(id), cap); CallOk(t, id, t.calls[id], cap, h)
  {
    var t := Next(s, Step.Leave(id), cap);
    assert t.calls[id].failed == s.calls[id].failed && t.calls[id].kind == s.calls[id].kind;
  }

  lemma WakeOk(s: State, step: Step, cap: int, h: Hasher)
    requires Inv(s, cap, h) && step.Wake? && Enabled(s, step, h, true)
    ensures Inv(Next(s, step, cap), cap, h)
  {
    var c := s.calls[step.id];
    assert CallOk(s, step.id, c, cap, h) && CallOk(s, c.pc.leader, s.calls[c.pc.leader], cap, h);
    WakeCall(s, step.id, cap, h);
    Assemble(s, Next(s, step, cap), step.id, cap, h);
  }

  lemma WakeCall(s: State, id: nat, cap: int, h: Hasher)
    requires id in s.calls && s.calls[id].pc.Waiting? && CallOk(s, id, s.calls[id], cap, h)
    requires var leader := s.calls[id].pc.leader;
             !InFlight(s.calls[leader].pc) && CallOk(s, leader, s.calls[leader], cap, h)
    ensures var t := Next(s, Step.Wake(id), cap); CallOk(t, id, t.calls[id], cap, h)
  {
    var t := Next(s, Step.Wake(id), cap);
    if s.calls[s.calls[id].pc.leader].pc.Threw? {
      FailedStays(s, t, id, t.calls[id], Key(s.calls[id]));
    }
  }

  /** Reading back finds the exact piece, or nothing for a reason. */
  lemma ReadFinds(s: State, hash: string, leader: Call, cap: int, h: Hasher)
    requires CacheOk(s, cap, h) && leader.hash == hash && (leader.touch > 0 || Hushed(leader))
    requires leader.touch > 0 ==> leader.touch <= |s.touches| && s.touches[leader.touch - 1].key == hash
    ensures var v := Lookup(s.cache, hash);
            (v.Some? ==> h(v.value) == hash) && (v.None? ==> Excused(s.touches, leader, cap))
  {
    LookupExact(s.cache, hash, h);
    if Lookup(s.cache, hash).None? && !Hushed(leader) {
      EvictedIsExcused(s.touches, leader, cap);
    }
  }

  lemma ReadCall(s: State, id: nat, cap: int, h: Hasher)
    requires CacheOk(s, cap, h) && id in s.calls && s.calls[id].pc.Reading? && CallOk(s, id, s.calls[id], cap, h)
    requires CallOk(s, s.calls[id].pc.leader, s.calls[s.calls[id].pc.leader], cap, h)
    ensures var t := Next(s, Step.Read(id), cap); CallOk(t, id, t.calls[id], cap, h)
  {
    var c, t := s.calls[id], Next(s, Step.Read(id), cap);
    var leader, v := c.pc.leader, Lookup(s.cache, c.hash);
    ReadFinds(s, c.hash, s.calls[leader], cap, h);
    assert t.calls[id] == c.(pc := Done(v, leader)) && t.inflight == s.inflight;
    assert s.touches <= t.touches && (v.None? ==> t.touches == s.touches);
  }

  lemma ReadOk(s: State, step: Step, cap: int, h: Hasher)
    requires Inv(s, cap, h) && step.Read? && Enabled(s, step, h, true)
    ensures Inv(Next(s, step, cap), cap, h)
  {
    var c := s.calls[step.id];
    assert CallOk(s, step.id, c, cap, h);
    CachedOk(s, cap, Op.Get(c.hash), h);
    assert CallOk(s, c.pc.leader, s.calls[c.pc.leader], cap, h);
    ReadCall(s, step.id, cap, h);
    Assemble(s, Next(s, step, cap), step.id, cap, h);
  }

  /** The call in the singleflight table is its key's leader. */
  lemma InflightIsLeader(s: State, k: (nat, string), cap: int, h: Hasher)
    requires Inv(s, cap, h) && k in s.inflight
    ensures s.inflight[k] in s.calls && Key(s.calls[s.inflight[k]]) == k && InFlight(s.calls[s.inflight[k]].pc)
  {
    assert s.inflight[k] in s.calls;
  }

  /** Every step keeps the invariant. */
  lemma StepKeeps(s: State, step: Step, cap: int, h: Hasher, room: bool)
    requires Inv(s, cap, h) && Enabled(s, step, h, room)
    ensures Inv(Next(s, step, cap), cap, h)
  {
    match step
    case Start(_, _, _, _) => StartOk(s, step, cap, h);
    case First(_) => FirstOk(s, step, cap, h);
    case Enter(_) => EnterOk(s, step, cap, h);
    case Check(_) => CheckOk(s, step, cap, h);
    case Acquire(_) => FetchOk(s, step, cap, h, room);
    case GetOk(_, _) => FetchOk(s, step, cap, h, room);
    case GetFail(_) => FetchOk(s, step, cap, h, room);
    case PutBack(_) => PutBackOk(s, step, cap, h);
    case Leave(_) => LeaveOk(s, step, cap, h);
    case Wake(_) => WakeOk(s, step, cap, h);
    case Read(_) => ReadOk(s, step, cap, h);
  }

  // ---------- Whole runs

  /** Any interleaving of any number of calls, from an empty cache. */
  ghost predicate Execution(states: seq<State>, steps: seq<Step>, cap: int, h: Hasher) {
    && |states| == |steps| + 1 && states[0] == Init
    && forall i {:trigger steps[i]} | 0 <= i < |steps| ::
         Enabled(states[i], steps[i], h, true) && states[i + 1] == Next(states[i], steps[i], cap)
  }

  lemma InitOk(cap: int, h: Hasher)
    ensures Inv(Init, cap, h)
  {}

  lemma {:induction false} AlwaysInv(states: seq<State>, steps: seq<Step>, cap: int, h: Hasher, i: nat)
    requires Execution(states, steps, cap, h) && i < |states|
    ensures Inv(states[i], cap, h)
  {
    if i == 0 {
      InitOk(cap, h);
    } else {
      AlwaysInv(states, steps, cap, h, i - 1);
      assert Enabled(states[i - 1], steps[i - 1], h, true);
      StepKeeps(states[i - 1], steps[i - 1], cap, h, true);
    }
  }

  /** Every cached value equals the stored piece, at any moment of any run. */
  lemma CachedIsStored(states: seq<State>, steps: seq<Step>, cap: int, h: Hasher, i: nat, pieces: Pieces, k: string)
    requires Execution(states, steps, cap, h) && i < |states|
    requires CollisionFree(h) && Hashed(pieces, h) && k in pieces
    ensures Lookup(states[i].cache, k).Some? ==> Lookup(states[i].cache, k).value == pieces[k]
  {
    AlwaysInv(states, steps, cap, h, i);
    LookupExact(states[i].cache, k, h);
  }

  /** At most one GET per hash is in flight in a singleflight group. */
  lemma OneGetPerKey(states: seq<State>, steps: seq<Step>, cap: int, h: Hasher, i: nat, a: nat, b: nat)
    requires Execution(states, steps, cap, h) && i < |states|
    requires a in states[i].calls && states[i].calls[a].pc.Fetching?
    requires b in states[i].calls && states[i].calls[b].pc.Fetching?
    requires Key(states[i].calls[a]) == Key(states[i].calls[b])
    ensures a == b
  {
    AlwaysInv(states, steps, cap, h, i);
    assert CallOk(states[i], a, states[i].calls[a], cap, h);
    assert CallOk(states[i], b, states[i].calls[b], cap, h);
  }

  /** A foreground call that returns has the exact piece, or finds it missing; and it
      finds it missing only if its leader was a prefetch whose GET failed, or at least
      `cap` distinct other keys were touched after the leader's last touch. */
  lemma ForegroundResult(states: seq<State>, steps: seq<Step>, cap: int, h: Hasher, i: nat, id: nat, pieces: Pieces)
    requires Execution(states, steps, cap, h) && i < |states|
    requires CollisionFree(h) && Hashed(pieces, h)
    requires id in states[i].calls && states[i].calls[id].kind.Foreground? && states[i].calls[id].pc.Done?
    requires states[i].calls[id].hash in pieces
    ensures var c := states[i].calls[id];
            && (c.pc.result.Some? ==> c.pc.result.value == pieces[c.hash])
            && (c.pc.result.None? ==>
                  && c.pc.leader in states[i].calls && states[i].calls[c.pc.leader].hash == c.hash
                  && Excused(states[i].touches, states[i].calls[c.pc.leader], cap))
  {
    AlwaysInv(states, steps, cap, h, i);
    assert CallOk(states[i], id, states[i].calls[id], cap, h);
  }

  /** And a foreground call throws only if some foreground call's GET for the same hash, in
      the same singleflight group, failed. */
  lemma ThrowsOnlyOnFailure(states: seq<State>, steps: seq<Step>, cap: int, h: Hasher, i: nat, id: nat)
    requires Execution(states, steps, cap, h) && i < |states|
    requires id in states[i].calls && states[i].calls[id].pc.Threw?
    ensures SomeFailed(states[i], Key(states[i].calls[id]))
  {
    AlwaysInv(states, steps, cap, h, i);
    assert CallOk(states[i], id, states[i].calls[id], cap, h);
  }

  // ---------- The store is asked only for what the cache does not have

  /** A foreground call that finds its piece in the cache answers it at once, without entering
      singleflight; a leader that finds it leaves without a GET. */
  lemma HitAnswers(states: seq<State>, steps: seq<Step>, cap: int, h: Hasher, i: nat, id: nat, pieces: Pieces)
    requires Execution(states, steps, cap, h) && i < |steps| && (steps[i] == First(id) || steps[i] == Check(id))
    requires CollisionFree(h) && Hashed(pieces, h)
    ensures id in states[i].calls && id in states[i + 1].calls
    ensures var s, t, hash := states[i], states[i + 1], states[i].calls[id].hash;
            hash in pieces && Has(s.cache, hash) ==>
              && t.inflight == s.inflight
              && t.calls[id].pc == if steps[i] == First(id) then Done(Some(pieces[hash]), id) else Leaving(true)
  {
    var s, hash := states[i], states[i].calls[id].hash;
    assert Enabled(s, steps[i], h, true) && states[i + 1] == Next(s, steps[i], cap);
    LookupHas(s.cache, hash);
    if hash in pieces {
      CachedIsStored(states, steps, cap, h, i, pieces, hash);
    }
  }

  /** The piece is the most recent entry, and the cache otherwise holds what it held. */
  ghost predicate MovedToFront(was: seq<Touched>, now: seq<Touched>, e: Touched) {
    now != [] && now[0] == e && forall k {:trigger Has(now, k)} :: k != e.key ==> (Has(now, k) <==> Has(was, k))
  }

  lemma HitMoves(l: seq<Touched>, cap: int, k: string)
    requires Has(l, k)
    ensures Lookup(l, k).Some? && MovedToFront(l, Apply(l, cap, Op.Get(k)), Entry(k, Lookup(l, k).value))
  {
    LookupHas(l, k);
    var e, rest := Entry(k, Lookup(l, k).value), Without(l, k);
    forall x {:trigger Has([e] + rest, x)} | x != k
      ensures Has([e] + rest, x) <==> Has(l, x)
    {
      WithoutHas(l, k, x);
      HasAppend([e], rest, x);
    }
  }

  /** Whenever a call finds its piece in the cache, this counts as a use: the piece is the most
      recent entry then. And so is a piece that a GET brought. */
  lemma UsesAreRecent(states: seq<State>, steps: seq<Step>, cap: int, h: Hasher, i: nat, id: nat, pieces: Pieces)
    requires Execution(states, steps, cap, h) && i < |steps| && cap > 0 && CollisionFree(h) && Hashed(pieces, h)
    requires steps[i] == First(id) || steps[i] == Check(id) || steps[i] == Read(id) || steps[i] == PutBack(id)
    ensures id in states[i].calls
    ensures var s, t, hash := states[i], states[i + 1], states[i].calls[id].hash;
            && (steps[i] != PutBack(id) && hash in pieces && Has(s.cache, hash) ==>
                  MovedToFront(s.cache, t.cache, Entry(hash, pieces[hash])))
            && (steps[i] == PutBack(id) && hash in pieces ==> t.cache != [] && t.cache[0] == Entry(hash, pieces[hash]))
  {
    var s, hash := states[i], states[i].calls[id].hash;
    assert Enabled(s, steps[i], h, true) && states[i + 1] == Next(s, steps[i], cap);
    AlwaysInv(states, steps, cap, h, i);
    if hash in pieces {
      CachedIsStored(states, steps, cap, h, i, pieces, hash);
      if steps[i] == PutBack(id) {
        assert CallOk(s, id, s.calls[id], cap, h);
        PutIsFirst(s.cache, cap, hash, s.calls[id].pc.data);
      } else if Has(s.cache, hash) {
        HitMoves(s.cache, cap, hash);
      }
    }
  }

  lemma PutIsFirst(l: seq<Touched>, cap: int, k: string, v: Bytes)
    requires cap > 0
    ensures Apply(l, cap, Op.Put(k, v)) != [] && Apply(l, cap, Op.Put(k, v))[0] == Entry(k, v)
  {}

  /** Before state `i`, call `id` looked by this step and did not find its piece. */
  ghost predicate Missed(states: seq<State>, steps: seq<Step>, i: nat, look: Step, hash: string) {
    exists j {:trigger steps[j]} :: 0 <= j < i && j < |steps| && j < |states| && steps[j] == look
                                    && !Has(states[j].cache, hash)
  }

  /** What misses a call has behind it, by where it is. */
  ghost predicate MissesBehind(c: Call, first: bool, check: bool) {
    && (c.kind.Foreground? && (c.pc.Join? || c.pc.Waiting? || c.pc.Leading? || c.pc.Queued? || c.pc.Fetching?) ==>
          first)
    && (c.pc.Queued? || c.pc.Fetching? ==> check)
  }

  lemma MissStep(s: State, step: Step, cap: int, h: Hasher, id: nat, first: bool, check: bool)
    requires Enabled(s, step, h, true) && id in Next(s, step, cap).calls
    requires id in s.calls ==> MissesBehind(s.calls[id], first, check)
    requires id in s.calls && !Has(s.cache, s.calls[id].hash) ==>
               (step == First(id) ==> first) && (step == Check(id) ==> check)
    ensures MissesBehind(Next(s, step, cap).calls[id], first, check)
  {
    if id in s.calls {
      LookupHas(s.cache, s.calls[id].hash);
    }
  }

  lemma MissLater(states: seq<State>, steps: seq<Step>, i: nat, look: Step, hash: string)
    requires i < |steps| && i < |states|
    ensures Missed(states, steps, i, look, hash) ==> Missed(states, steps, i + 1, look, hash)
    ensures steps[i] == look && !Has(states[i].cache, hash) ==> Missed(states, steps, i + 1, look, hash)
  {}

  ghost predicate MissesAt(states: seq<State>, steps: seq<Step>, i: nat, id: nat) {
    i < |states| && (id in states[i].calls ==>
      var c := states[i].calls[id];
      MissesBehind(c, Missed(states, steps, i, First(id), c.hash), Missed(states, steps, i, Check(id), c.hash)))
  }

  lemma MissNext(states: seq<State>, steps: seq<Step>, cap: int, h: Hasher, i: nat, id: nat)
    requires i < |steps| < |states| && Enabled(states[i], steps[i], h, true)
    requires states[i + 1] == Next(states[i], steps[i], cap) && MissesAt(states, steps, i, id)
    ensures MissesAt(states, steps, i + 1, id)
  {
    if id in states[i + 1].calls {
      var hash := states[i + 1].calls[id].hash;
      MissLater(states, steps, i, First(id), hash);
      MissLater(states, steps, i, Check(id), hash);
      MissStep(states[i], steps[i], cap, h, id,
               Missed(states, steps, i + 1, First(id), hash), Missed(states, steps, i + 1, Check(id), hash));
    }
  }

  /** A GET is made only after its leader has looked into the cache inside singleflight and
      not found the piece; if it is a foreground call, after it had missed before, too. */
  lemma {:induction false} GetAfterMiss(states: seq<State>, steps: seq<Step>, cap: int, h: Hasher, i: nat, id: nat)
    requires Execution(states, steps, cap, h) && i < |states|
    ensures MissesAt(states, steps, i, id)
  {
    if i > 0 {
      GetAfterMiss(states, steps, cap, h, i - 1, id);
      assert Enabled(states[i - 1], steps[i - 1], h, true);
      MissNext(states, steps, cap, h, i - 1, id);
    }
  }
}
