/**
 * `patchBotToSupportMutipleEventHandlers` of `src/bot/utils.ts`: `bot.on` keeps a list of
 * handlers per update type and attaches one listener per type to the client's own `on`.
 * The listener for `'message'` is attached from a zero-delay timer, written here as a
 * second bootstrap phase that runs after every registration of the first.
 */
module Registry {
  import opened Wrappers
  import opened Sequences

  const MessageType := "message"

  /**
   * The handler lists by update type, the types whose listener is attached (in the order
   * the client's `on` was called) and the types whose attachment waits for the second phase.
   */
  datatype Registry<H> = Registry(handlers: map<string, seq<H>>, attached: seq<string>, deferred: seq<string>)

  /** One `bot.on(updateType, ...fns)` call; a single type is a one-element list. */
  datatype Call<H> = Call(types: seq<string>, fns: seq<H>)

  function Empty<H>(): Registry<H> {
    Registry(map[], [], [])
  }

  predicate NoDuplicates(s: seq<string>) {
    forall i, j :: 0 <= i < j < |s| ==> s[i] != s[j]
  }

  /**
   * Every type with a handler list has exactly one listener, attached or waiting,
   * and only `'message'` ever waits.
   */
  ghost predicate Consistent<H>(r: Registry<H>) {
    && NoDuplicates(r.attached + r.deferred)
    && (forall t :: t in r.handlers <==> t in r.attached + r.deferred)
    && (r.deferred == [] || r.deferred == [MessageType])
  }

  /** The state during the first phase: `'message'` is not attached yet. */
  ghost predicate FirstPhase<H>(r: Registry<H>) {
    Consistent(r) && MessageType !in r.attached
  }

  /** The handlers a listener for `t` calls, read when the update arrives. */
  function Dispatch<H>(r: Registry<H>, t: string): seq<H> {
    if t in r.handlers then r.handlers[t] else []
  }

  /**
   * One type of a `bot.on` call: on the type's first registration, create its list and
   * attach a listener (or defer it, for `'message'`); then append the handlers.
   */
  function RegisterOne<H>(r: Registry<H>, t: string, fns: seq<H>): (r': Registry<H>)
    ensures forall u :: u in r'.handlers <==> u in r.handlers || u == t
    ensures Dispatch(r', t) == Dispatch(r, t) + fns
    ensures forall u :: u != t ==> Dispatch(r', u) == Dispatch(r, u)
    ensures t in r.handlers ==> r'.attached == r.attached && r'.deferred == r.deferred
    ensures t !in r.handlers && t != MessageType ==> r'.attached == r.attached + [t] && r'.deferred == r.deferred
    ensures t !in r.handlers && t == MessageType ==> r'.attached == r.attached && r'.deferred == r.deferred + [t]
  {
    if t in r.handlers then
      r.(handlers := r.handlers[t := r.handlers[t] + fns])
    else if t != MessageType then
      Registry(r.handlers[t := fns], r.attached + [t], r.deferred)
    else
      Registry(r.handlers[t := fns], r.attached, r.deferred + [t])
  }

  /** `bot.on(types, ...fns)`: the types in list order, as `forEach` takes them. */
  function On<H>(r: Registry<H>, types: seq<string>, fns: seq<H>): Registry<H>
    decreases |types|
  {
    if types == [] then r
    else RegisterOne(On(r, types[..|types| - 1], fns), types[|types| - 1], fns)
  }

  /** The first phase: every `bot.on` call of the bootstrap, in order. */
  function Register<H>(calls: seq<Call<H>>): Registry<H>
    decreases |calls|
  {
    if calls == [] then Empty()
    else
      var last := calls[|calls| - 1];
      On(Register(calls[..|calls| - 1]), last.types, last.fns)
  }

  /** The second phase: the deferred listeners are attached after all the others. */
  function Flush<H>(r: Registry<H>): (r': Registry<H>)
    ensures r'.handlers == r.handlers && r'.deferred == []
  {
    Registry(r.handlers, r.attached + r.deferred, [])
  }

  function Bootstrap<H>(calls: seq<Call<H>>): Registry<H> {
    Flush(Register(calls))
  }

  /**
   * The attached listener an update reaches: the first, in attachment order, whose type the
   * update has. The client stops there, because the listener does not call `next()`.
   */
  function Route<H>(r: Registry<H>, updateTypes: set<string>): (t: Option<string>)
    decreases |r.attached|
    ensures t.None? <==> forall i :: 0 <= i < |r.attached| ==> r.attached[i] !in updateTypes
    ensures t.Some? ==> exists i :: (0 <= i < |r.attached| && r.attached[i] == t.value
      && t.value in updateTypes && forall j :: 0 <= j < i ==> r.attached[j] !in updateTypes)
  {
    if r.attached == [] then None
    else if r.attached[0] in updateTypes then Some(r.attached[0])
    else
      var rest := Route(r.(attached := r.attached[1..]), updateTypes);
      assert forall i :: 0 <= i < |r.attached| - 1 ==> r.attached[1..][i] == r.attached[i + 1];
      if rest.Some? then
        var i :| 0 <= i < |r.attached[1..]| && r.attached[1..][i] == rest.value && rest.value in updateTypes
          && forall j :: 0 <= j < i ==> r.attached[1..][j] !in updateTypes;
        assert r.attached[i + 1] == rest.value && forall j :: 0 <= j < i + 1 ==> r.attached[j] !in updateTypes;
        rest
      else rest
  }

  /** The handlers an update runs: those of the listener it reaches. */
  function Handle<H>(r: Registry<H>, updateTypes: set<string>): seq<H> {
    match Route(r, updateTypes)
    case None => []
    case Some(t) => Dispatch(r, t)
  }

  // ------------------------------------------------------------ reference definitions

  /** How many times `t` is listed. */
  function Count(types: seq<string>, t: string): nat
    decreases |types|
  {
    if types == [] then 0
    else Count(types[..|types| - 1], t) + (if types[|types| - 1] == t then 1 else 0)
  }

  /** `n` copies of `fns`, one after the other. */
  function Repeat<H>(fns: seq<H>, n: nat): seq<H> {
    if n == 0 then [] else Repeat(fns, n - 1) + fns
  }

  /** The handlers for `t` from the calls, in call order: each call's handlers once per listing. */
  function Registered<H>(calls: seq<Call<H>>, t: string): seq<H>
    decreases |calls|
  {
    if calls == [] then []
    else
      var last := calls[|calls| - 1];
      Registered(calls[..|calls| - 1], t) + Repeat(last.fns, Count(last.types, t))
  }

  /** Some call lists `t`. */
  predicate Mentioned<H>(calls: seq<Call<H>>, t: string) {
    exists k :: 0 <= k < |calls| && t in calls[k].types
  }

  // ------------------------------------------------------------ lemmas

  /** `bot.on(types, ...fns)` appends `fns` to the list of each listed type, once per listing. */
  lemma {:induction false} OnAppends<H>(r: Registry<H>, types: seq<string>, fns: seq<H>, t: string)
    ensures Dispatch(On(r, types, fns), t) == Dispatch(r, t) + Repeat(fns, Count(types, t))
    decreases |types|
  {
    if types != [] {
      var init := types[..|types| - 1];
      OnAppends(r, init, fns, t);
      OnStep(r, types, fns, t);
      if types[|types| - 1] == t {
        RepeatOneMore(fns, Count(init, t));
        Associative(Dispatch(r, t), Repeat(fns, Count(init, t)), fns);
      }
    }
  }

  /** The last type of a `bot.on` call adds the handlers to its own list and to no other. */
  lemma OnStep<H>(r: Registry<H>, types: seq<string>, fns: seq<H>, t: string)
    requires types != []
    ensures var init := types[..|types| - 1];
      if types[|types| - 1] == t then
        Dispatch(On(r, types, fns), t) == Dispatch(On(r, init, fns), t) + fns
        && Count(types, t) == Count(init, t) + 1
      else
        Dispatch(On(r, types, fns), t) == Dispatch(On(r, init, fns), t)
        && Count(types, t) == Count(init, t)
  {
  }

  lemma RepeatOneMore<H>(fns: seq<H>, n: nat)
    ensures Repeat(fns, n + 1) == Repeat(fns, n) + fns
  {
  }

  /** After the first phase each type's list holds the handlers of every call, in call order. */
  lemma {:induction false} RegisterCollects<H>(calls: seq<Call<H>>, t: string)
    ensures Dispatch(Register(calls), t) == Registered(calls, t)
    decreases |calls|
  {
    if calls != [] {
      var last := calls[|calls| - 1];
      RegisterCollects(calls[..|calls| - 1], t);
      OnAppends(Register(calls[..|calls| - 1]), last.types, last.fns, t);
    }
  }

  /** The dispatched handlers after bootstrap are the registered ones, in registration order. */
  lemma BootstrapDispatch<H>(calls: seq<Call<H>>, t: string)
    ensures Dispatch(Bootstrap(calls), t) == Registered(calls, t)
  {
    RegisterCollects(calls, t);
  }

  /** A type is new to no list exactly once: adding it keeps every type listed once. */
  lemma AddNew(a: seq<string>, d: seq<string>, t: string)
    requires NoDuplicates(a + d) && t !in a + d
    ensures NoDuplicates(a + [t] + d) && NoDuplicates(a + d + [t])
  {
    var s := a + [t] + d;
    forall i, j | 0 <= i < j < |s|
      ensures s[i] != s[j]
    {
      if i < |a| {
        assert s[i] == (a + d)[i];
        if j < |a| {
          assert s[j] == (a + d)[j];
        } else if j > |a| {
          assert s[j] == (a + d)[j - 1];
        }
      } else if i == |a| {
        assert s[j] == (a + d)[j - 1];
      } else {
        assert s[i] == (a + d)[i - 1] && s[j] == (a + d)[j - 1];
      }
    }
  }

  /** Registering keeps one listener per type and keeps `'message'` waiting. */
  lemma RegisterOneFirstPhase<H>(r: Registry<H>, t: string, fns: seq<H>)
    requires FirstPhase(r)
    ensures FirstPhase(RegisterOne(r, t, fns))
  {
    var r' := RegisterOne(r, t, fns);
    if t !in r.handlers {
      AddNew(r.attached, r.deferred, t);
      if t != MessageType {
        assert r'.attached + r'.deferred == r.attached + [t] + r.deferred;
      } else {
        assert r'.attached + r'.deferred == r.attached + r.deferred + [t];
      }
    }
  }

  /** `bot.on` keeps the first-phase state and adds a list for each listed type. */
  lemma {:induction false} OnFirstPhase<H>(r: Registry<H>, types: seq<string>, fns: seq<H>)
    requires FirstPhase(r)
    ensures FirstPhase(On(r, types, fns))
    ensures forall t :: t in On(r, types, fns).handlers <==> t in r.handlers || t in types
    decreases |types|
  {
    if types != [] {
      var init := types[..|types| - 1];
      var last := types[|types| - 1];
      OnFirstPhase(r, init, fns);
      var before := On(r, init, fns);
      RegisterOneFirstPhase(before, last, fns);
      assert On(r, types, fns) == RegisterOne(before, last, fns);
      forall t
        ensures t in On(r, types, fns).handlers <==> t in r.handlers || t in types
      {
        InSplitLast(types, t);
      }
    }
  }

  /** The types some call of a longer bootstrap lists. */
  lemma MentionedLast<H>(calls: seq<Call<H>>, t: string)
    requires calls != []
    ensures Mentioned(calls, t) <==> Mentioned(calls[..|calls| - 1], t) || t in calls[|calls| - 1].types
  {
    var init := calls[..|calls| - 1];
    if Mentioned(init, t) {
      var k :| 0 <= k < |init| && t in init[k].types;
      assert calls[k] == init[k];
    }
    if Mentioned(calls, t) && t !in calls[|calls| - 1].types {
      var k :| 0 <= k < |calls| && t in calls[k].types;
      assert init[k] == calls[k];
    }
  }

  /**
   * During the first phase no listener is attached twice, `'message'` is not attached at
   * all, and the types with a list are the types some call names.
   */
  lemma {:induction false} RegisterFirstPhase<H>(calls: seq<Call<H>>)
    ensures FirstPhase(Register(calls))
    ensures forall t :: t in Register(calls).handlers <==> Mentioned(calls, t)
    decreases |calls|
  {
    if calls != [] {
      var init := calls[..|calls| - 1];
      var last := calls[|calls| - 1];
      RegisterFirstPhase(init);
      OnFirstPhase(Register(init), last.types, last.fns);
      forall t
        ensures t in Register(calls).handlers <==> Mentioned(calls, t)
      {
        MentionedLast(calls, t);
      }
    }
  }

  /**
   * After bootstrap every registered type has exactly one listener, every listener is
   * attached, and `'message'`, when registered, is attached last.
   */
  lemma BootstrapAttachesOnce<H>(calls: seq<Call<H>>)
    ensures var r := Bootstrap(calls);
      && r.deferred == []
      && NoDuplicates(r.attached)
      && (forall t :: t in r.attached <==> Mentioned(calls, t))
      && (Mentioned(calls, MessageType) ==> r.attached[|r.attached| - 1] == MessageType)
  {
    var p := Register(calls);
    RegisterFirstPhase(calls);
    var r := Bootstrap(calls);
    assert r.attached == p.attached + p.deferred;
    if Mentioned(calls, MessageType) {
      assert MessageType in p.attached + p.deferred;
      assert p.deferred == [MessageType];
    }
  }

  /**
   * An update that has `'message'` and some other registered type reaches the other type's
   * listener: `'message'` handlers never take an update a more specific listener claims.
   */
  lemma MessageRoutedLast<H>(calls: seq<Call<H>>, updateTypes: set<string>, t: string)
    requires Mentioned(calls, t) && t != MessageType && t in updateTypes
    ensures Route(Bootstrap(calls), updateTypes).Some?
    ensures Route(Bootstrap(calls), updateTypes) != Some(MessageType)
  {
    var r := Bootstrap(calls);
    BootstrapAttachesOnce(calls);
    var k :| 0 <= k < |r.attached| && r.attached[k] == t;
    var found := Route(r, updateTypes);
    var i :| 0 <= i < |r.attached| && r.attached[i] == found.value
      && found.value in updateTypes && forall j :: 0 <= j < i ==> r.attached[j] !in updateTypes;
    assert i <= k;
    if Mentioned(calls, MessageType) {
      var last := |r.attached| - 1;
      assert k < last;
      assert r.attached[i] != r.attached[last];
    }
  }
}
