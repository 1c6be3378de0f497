/**
 * The per-model-class event registry: for every event name, the set of
 * subscribed callbacks, and dispatch that calls each subscriber once and
 * swallows any `Exception` a subscriber raises.
 */
module Events {
  import opened Wrappers

  /** A subscriber callback, identified by an opaque id. */
  type CallbackId = nat

  /** Raised by `set.remove` when unregistering a callback that is not subscribed. */
  datatype NotRegistered = NotRegistered(event: string, callback: CallbackId)

  /**
   * How a subscriber call ended: it returned; it raised an `Exception`, which
   * emit catches; or it raised some other `BaseException` (`SystemExit`,
   * `KeyboardInterrupt`), which escapes emit.
   */
  datatype Outcome = Returned | Caught | Escaped

  /** How subscriber `cb` ends, given the callbacks that raise each kind of exception. */
  function OutcomeOf(cb: CallbackId, raising: set<CallbackId>, fatal: set<CallbackId>): Outcome {
    if cb in fatal then Escaped else if cb in raising then Caught else Returned
  }

  /** One subscriber call made by an emit: whom it called, on which instance, with what, and how it ended. */
  datatype Call<I, A> = Call(callback: CallbackId, instance: I, event: string, args: A, outcome: Outcome)

  /** The subscribers of `event`; an event never touched has none. */
  function SubscribersOf(callbacks: map<string, set<CallbackId>>, event: string): set<CallbackId> {
    if event in callbacks then callbacks[event] else {}
  }

  /** The registry after adding `cb` to the subscribers of `event`. */
  function WithSubscriber(callbacks: map<string, set<CallbackId>>, event: string, cb: CallbackId): (r: map<string, set<CallbackId>>)
    ensures SubscribersOf(r, event) == SubscribersOf(callbacks, event) + {cb}
    ensures forall e :: e != event ==> SubscribersOf(r, e) == SubscribersOf(callbacks, e)
  {
    callbacks[event := SubscribersOf(callbacks, event) + {cb}]
  }

  /** The registry after removing `cb` from the subscribers of `event`. */
  function WithoutSubscriber(callbacks: map<string, set<CallbackId>>, event: string, cb: CallbackId): (r: map<string, set<CallbackId>>)
    ensures SubscribersOf(r, event) == SubscribersOf(callbacks, event) - {cb}
    ensures forall e :: e != event ==> SubscribersOf(r, e) == SubscribersOf(callbacks, e)
  {
    callbacks[event := SubscribersOf(callbacks, event) - {cb}]
  }

  /** Registering a callback that is already subscribed leaves the registry as it was. */
  lemma RegisterTwiceIsNoOp(callbacks: map<string, set<CallbackId>>, event: string, cb: CallbackId)
    requires cb in SubscribersOf(callbacks, event)
    ensures WithSubscriber(callbacks, event, cb) == callbacks
  {
    assert SubscribersOf(callbacks, event) + {cb} == callbacks[event];
  }

  /** Unregistering undoes registering a callback that was not subscribed. */
  lemma UnregisterUndoesRegister(callbacks: map<string, set<CallbackId>>, event: string, cb: CallbackId)
    requires cb !in SubscribersOf(callbacks, event)
    ensures forall e :: SubscribersOf(WithoutSubscriber(WithSubscriber(callbacks, event, cb), event, cb), e)
                        == SubscribersOf(callbacks, e)
  {
  }

  /** `c` is a call of a subscriber in `subs` made by emitting `event` on `instance` with `args`. */
  ghost predicate CallMatches<I, A>(c: Call<I, A>, subs: set<CallbackId>, instance: I, event: string, args: A,
                                    raising: set<CallbackId>, fatal: set<CallbackId>) {
    c.callback in subs && c.instance == instance && c.event == event && c.args == args &&
    c.outcome == OutcomeOf(c.callback, raising, fatal)
  }

  /** The callbacks called in `log`. */
  function Callees<I, A>(log: seq<Call<I, A>>): (r: set<CallbackId>)
    ensures forall i :: 0 <= i < |log| ==> log[i].callback in r
  {
    if log == [] then {} else Callees(log[..|log| - 1]) + {log[|log| - 1].callback}
  }

  /** Every callback in `Callees(log)` has a call in `log`. */
  lemma {:induction false} CalleeIsCalled<I, A>(log: seq<Call<I, A>>, cb: CallbackId)
    requires cb in Callees(log)
    ensures exists i :: 0 <= i < |log| && log[i].callback == cb
  {
    if log[|log| - 1].callback != cb {
      CalleeIsCalled(log[..|log| - 1], cb);
      var i :| 0 <= i < |log| - 1 && log[..|log| - 1][i].callback == cb;
      assert log[i].callback == cb;
    }
  }

  /** No callback is called twice in `log`. */
  ghost predicate CalledOnce<I, A>(log: seq<Call<I, A>>) {
    forall i, j :: 0 <= i < j < |log| ==> log[i].callback != log[j].callback
  }

  /** Every call in `log` is a subscriber call made by emitting `event` on `instance` with `args`. */
  ghost predicate AllMatch<I, A>(log: seq<Call<I, A>>, subs: set<CallbackId>, instance: I, event: string, args: A,
                                 raising: set<CallbackId>, fatal: set<CallbackId>) {
    forall i :: 0 <= i < |log| ==> CallMatches(log[i], subs, instance, event, args, raising, fatal)
  }

  /** Only the last call of `log` may have let an exception escape. */
  ghost predicate EscapesOnlyLast<I, A>(log: seq<Call<I, A>>) {
    forall i :: 0 <= i < |log| && log[i].outcome == Escaped ==> i == |log| - 1
  }

  /**
   * The state of an emit part way through: `log` called, once each, exactly
   * the subscribers no longer `pending`, and only its last call may have let
   * an exception escape, which then stopped dispatch.
   */
  ghost predicate Dispatching<I, A>(log: seq<Call<I, A>>, escaped: Option<CallbackId>,
                                    subs: set<CallbackId>, pending: set<CallbackId>,
                                    instance: I, event: string, args: A,
                                    raising: set<CallbackId>, fatal: set<CallbackId>) {
    && |log| + |pending| == |subs|
    && Callees(log) == subs - pending
    && CalledOnce(log)
    && AllMatch(log, subs, instance, event, args, raising, fatal)
    && EscapesOnlyLast(log)
    && (escaped.Some? <==> |log| > 0 && log[|log| - 1].outcome == Escaped)
    && (escaped.Some? ==> escaped.value == log[|log| - 1].callback)
  }

  /** The callbacks called in `log + [c]` are those of `log` and `c`'s. */
  lemma CalleesAppend<I, A>(log: seq<Call<I, A>>, c: Call<I, A>)
    ensures Callees(log + [c]) == Callees(log) + {c.callback}
  {
    assert (log + [c])[..|log|] == log;
  }

  /** Calling a callback not called before keeps every callback called once. */
  lemma CalledOnceAppend<I, A>(log: seq<Call<I, A>>, c: Call<I, A>)
    requires CalledOnce(log) && c.callback !in Callees(log)
    ensures CalledOnce(log + [c])
  {
    forall i, j | 0 <= i < j < |log| + 1
      ensures (log + [c])[i].callback != (log + [c])[j].callback
    {
      if j == |log| {
        assert log[i].callback in Callees(log);
      } else {
        assert (log + [c])[i] == log[i] && (log + [c])[j] == log[j];
      }
    }
  }

  /** Appending a matching call keeps every call matching. */
  lemma AllMatchAppend<I, A>(log: seq<Call<I, A>>, c: Call<I, A>, subs: set<CallbackId>, instance: I, event: string, args: A,
                             raising: set<CallbackId>, fatal: set<CallbackId>)
    requires AllMatch(log, subs, instance, event, args, raising, fatal)
    requires CallMatches(c, subs, instance, event, args, raising, fatal)
    ensures AllMatch(log + [c], subs, instance, event, args, raising, fatal)
  {
    var log' := log + [c];
    forall i | 0 <= i < |log'|
      ensures CallMatches(log'[i], subs, instance, event, args, raising, fatal)
    {
      if i < |log| {
        assert log'[i] == log[i];
      }
    }
  }

  /** Appending a call after calls of which none escaped keeps only the last one escaping. */
  lemma EscapesOnlyLastAppend<I, A>(log: seq<Call<I, A>>, c: Call<I, A>)
    requires EscapesOnlyLast(log) && (log != [] ==> log[|log| - 1].outcome != Escaped)
    ensures EscapesOnlyLast(log + [c])
  {
    assert forall i :: 0 <= i < |log| ==> (log + [c])[i] == log[i];
  }

  /** Calling one more pending subscriber, when none has escaped yet, keeps `Dispatching`. */
  lemma DispatchStep<I, A>(log: seq<Call<I, A>>, subs: set<CallbackId>, pending: set<CallbackId>,
                           cb: CallbackId, instance: I, event: string, args: A,
                           raising: set<CallbackId>, fatal: set<CallbackId>)
    requires pending <= subs && cb in pending
    requires Dispatching(log, None, subs, pending, instance, event, args, raising, fatal)
    ensures var outcome := OutcomeOf(cb, raising, fatal);
      Dispatching(log + [Call(cb, instance, event, args, outcome)], if outcome == Escaped then Some(cb) else None,
                  subs, pending - {cb}, instance, event, args, raising, fatal)
  {
    var c := Call(cb, instance, event, args, OutcomeOf(cb, raising, fatal));
    var log' := log + [c];
    CalleesAppend(log, c);
    CalledOnceAppend(log, c);
    AllMatchAppend(log, c, subs, instance, event, args, raising, fatal);
    EscapesOnlyLastAppend(log, c);
  }

  /**
   * What an emit of `event` on `instance` with `args` to the subscribers
   * `subs` has done: each call went to a distinct subscriber and recorded how
   * it ended; only the last call may have let an exception escape, and then
   * `escaped` names that subscriber, which is fatal; otherwise every
   * subscriber was called. No fatal subscriber means nothing escaped.
   */
  ghost predicate Emitted<I, A>(log: seq<Call<I, A>>, escaped: Option<CallbackId>, subs: set<CallbackId>,
                                instance: I, event: string, args: A,
                                raising: set<CallbackId>, fatal: set<CallbackId>) {
    && (forall i, j :: 0 <= i < j < |log| ==> log[i].callback != log[j].callback)
    && (forall i :: 0 <= i < |log| ==> CallMatches(log[i], subs, instance, event, args, raising, fatal))
    && (forall i :: 0 <= i < |log| && log[i].outcome == Escaped ==> i == |log| - 1)
    && (escaped.Some? <==> |log| > 0 && log[|log| - 1].outcome == Escaped)
    && (escaped.Some? ==> escaped.value == log[|log| - 1].callback && escaped.value in fatal)
    && (escaped.None? ==> |log| == |subs|)
    && (escaped.None? ==> forall cb :: cb in subs ==> exists i :: 0 <= i < |log| && log[i].callback == cb)
    && (subs !! fatal ==> escaped.None?)
  }

  /** When dispatch ends, either a subscriber escaped or every subscriber was called. */
  lemma DispatchDone<I, A>(log: seq<Call<I, A>>, escaped: Option<CallbackId>,
                           subs: set<CallbackId>, pending: set<CallbackId>,
                           instance: I, event: string, args: A,
                           raising: set<CallbackId>, fatal: set<CallbackId>)
    requires pending <= subs && (pending == {} || escaped.Some?)
    requires Dispatching(log, escaped, subs, pending, instance, event, args, raising, fatal)
    ensures Emitted(log, escaped, subs, instance, event, args, raising, fatal)
  {
    if escaped.None? {
      forall cb | cb in subs
        ensures exists i :: 0 <= i < |log| && log[i].callback == cb
      {
        CalleeIsCalled(log, cb);
      }
    } else {
      assert CallMatches(log[|log| - 1], subs, instance, event, args, raising, fatal);
    }
  }

  /** The event-callback table of one decorated model class. */
  class EventRegistry {
    var callbacks: map<string, set<CallbackId>>

    /** A freshly decorated class starts with no subscribers. */
    constructor ()
      ensures forall e :: Subscribers(e) == {}
    {
      callbacks := map[];
    }

    function Subscribers(event: string): set<CallbackId>
      reads this
    {
      SubscribersOf(callbacks, event)
    }

    /** Subscribes `cb` to `event` and returns `cb`; a second registration changes nothing. */
    method Register(event: string, cb: CallbackId) returns (r: CallbackId)
      modifies this
      ensures r == cb
      ensures callbacks == WithSubscriber(old(callbacks), event, cb)
      ensures cb in old(Subscribers(event)) ==> callbacks == old(callbacks)
    {
      if cb in Subscribers(event) {
        RegisterTwiceIsNoOp(callbacks, event, cb);
      }
      callbacks := callbacks[event := Subscribers(event) + {cb}];
      r := cb;
    }

    /** Unsubscribes `cb` from `event`; raises, changing nothing, when `cb` is not subscribed. */
    method Unregister(event: string, cb: CallbackId) returns (r: Result<(), NotRegistered>)
      modifies this
      ensures r.Ok? <==> cb in old(Subscribers(event))
      ensures r.Ok? ==> callbacks == WithoutSubscriber(old(callbacks), event, cb)
      ensures r.Err? ==> callbacks == old(callbacks) && r.error == NotRegistered(event, cb)
    {
      if cb in Subscribers(event) {
        callbacks := callbacks[event := Subscribers(event) - {cb}];
        r := Ok(());
      } else {
        r := Err(NotRegistered(event, cb));
      }
    }

    /**
     * Calls the subscribers of `event`, in no particular order, each with the
     * emitting `instance` and `args`. A subscriber in `raising` raises an
     * `Exception`: it is caught and dispatch goes on. A subscriber in `fatal`
     * raises a `BaseException` that is not an `Exception`: dispatch stops and
     * `escaped` names it. When no subscriber is fatal, every subscriber is
     * called exactly once and emit returns normally.
     */
    method Emit<I, A>(instance: I, event: string, args: A, raising: set<CallbackId>, fatal: set<CallbackId>)
      returns (log: seq<Call<I, A>>, escaped: Option<CallbackId>)
      ensures Emitted(log, escaped, Subscribers(event), instance, event, args, raising, fatal)
    {
      var subs := Subscribers(event);
      var pending := subs;
      log, escaped := [], None;
      while pending != {} && escaped.None?
        invariant pending <= subs
        invariant Dispatching(log, escaped, subs, pending, instance, event, args, raising, fatal)
        decreases pending
      {
        var cb :| cb in pending;
        // The call itself is opaque; how it ended is all that is recorded.
        var outcome := OutcomeOf(cb, raising, fatal);
        DispatchStep(log, subs, pending, cb, instance, event, args, raising, fatal);
        log := log + [Call(cb, instance, event, args, outcome)];
        pending := pending - {cb};
        escaped := if outcome == Escaped then Some(cb) else None;
      }
      DispatchDone(log, escaped, subs, pending, instance, event, args, raising, fatal);
    }
  }
}
