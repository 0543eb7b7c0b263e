/**
 The owner of the delivery bundle. Every method is one uninterrupted stretch of the source's
 asynchronous start, stop and close, so that calling them in any order their `requires` allow
 is every interleaving of those operations.
 */
module Lifecycle {
  import opened Wrappers

  type Key = string
  type Bundle = nat

  /** A start attempt: its token is unique, its epoch is the one it began in. */
  datatype Attempt = Attempt(epoch: nat, key: Key)

  datatype StartPhase = Queued | Running | Cleaning(bundle: Bundle)
  datatype StartOperation = StartOperation(token: nat, phase: StartPhase)
  datatype StopPhase = Joining | Releasing(bundle: Bundle)

  datatype StartAnswer = Began | JoinedStart | AlreadyReady | MustWaitForStop | Refused

  class ActivityWindowDeliveryLifecycle {
    var epoch: nat
    var closed: bool
    var resources: Option<Bundle>
    var resourceKey: Option<Key>
    var startKey: Option<Key>
    var attemptToken: Option<nat>
    var starting: Option<StartOperation>
    var stopping: Option<StopPhase>
    var ready: bool
    /** All attempts so far, by token. */
    var attempts: map<nat, Attempt>
    /** Bundles handed over, and bundles whose release has completed. */
    ghost var owned: set<Bundle>
    ghost var released: set<Bundle>

    predicate IsCurrent(token: nat)
      reads this
    {
      token in attempts && !closed && attempts[token].epoch == epoch && attemptToken == Some(token)
    }

    /** No bundle is held, none is being started and no attempt could still hand one over. */
    predicate Quiet()
      reads this
    {
      resources.None? && starting.None? && attemptToken.None? && !ready
    }

    /** The bundles that were handed over and not released are exactly the one that is held. */
    ghost predicate NothingLeaked()
      reads this
    {
      && released <= owned
      && owned - released == if resources.Some? then {resources.value} else {}
    }

    ghost predicate Valid()
      reads this
    {
      && NothingLeaked()
      && (resources.Some? <==> resourceKey.Some?)
      && (starting.Some? <==> startKey.Some?)
      && (starting.Some? ==>
            && starting.value.token in attempts && startKey == Some(attempts[starting.value.token].key)
            && (attemptToken.Some? ==> attemptToken == Some(starting.value.token))
            && (resources.Some? ==> resourceKey == startKey)
            && (starting.value.phase.Queued? ==> attemptToken.Some?)
            && (starting.value.phase.Running? ==> attemptToken.Some?)
            && (starting.value.phase.Cleaning? ==> attemptToken.None? && resources == Some(starting.value.phase.bundle))
            && !ready)
      && (attemptToken.Some? ==> attemptToken.value in attempts)
      && (starting.None? && attemptToken.Some? ==> resources.Some?)
      && (stopping.Some? ==> attemptToken.Some? ==> attempts[attemptToken.value].epoch < epoch)
      && (stopping.Some? && stopping.value.Releasing? ==> starting.None? && resources == Some(stopping.value.bundle))
      && (ready ==> resources.Some? && stopping.None? && attemptToken.Some? && IsCurrent(attemptToken.value))
      && (forall t | t in attempts :: attempts[t].epoch <= epoch)
    }

    constructor ()
      ensures Valid() && Quiet() && !closed && owned == {} && released == {}
    {
      epoch, closed, ready := 0, false, false;
      resources, resourceKey, startKey, attemptToken, starting, stopping := None, None, None, None, None, None;
      attempts := map[];
      owned, released := {}, {};
    }

    method Close()
      requires Valid()
      modifies this`closed, this`epoch, this`ready
      ensures Valid() && closed && !ready
      ensures old(Quiet()) ==> Quiet()
    {
      if closed { return; }
      closed := true;
      epoch := epoch + 1;
      ready := false;
    }

    /** The synchronous part of start; a caller told to wait calls again after the stop. */
    method Start(key: Key, token: nat) returns (answer: StartAnswer)
      requires Valid() && token !in attempts
      modifies this`startKey, this`attemptToken, this`starting, this`attempts
      ensures Valid()
      ensures answer.Began? <==> !old(closed) && old(stopping).None? && old(starting).None? && old(resources).None?
      ensures answer.Began? ==> IsCurrent(token) && starting == Some(StartOperation(token, Queued))
      ensures !answer.Began? ==>
                starting == old(starting) && attemptToken == old(attemptToken) && attempts == old(attempts)
      ensures answer.AlreadyReady? ==> ready && resourceKey == Some(key)
    {
      if closed { return Refused; }
      if stopping.Some? { return MustWaitForStop; }
      if starting.Some? { return if startKey == Some(key) then JoinedStart else Refused; }
      if resources.Some? { return if ready && resourceKey == Some(key) then AlreadyReady else Refused; }
      attempts := attempts[token := Attempt(epoch, key)];
      startKey := Some(key);
      attemptToken := Some(token);
      starting := Some(StartOperation(token, Queued));
      return Began;
    }

    /** The queued continuation of start runs, or fails because it was invalidated meanwhile. */
    method BeginRun()
      requires Valid() && starting.Some? && starting.value.phase.Queued?
      modifies this
      ensures Valid() && epoch == old(epoch) && owned == old(owned) && attempts == old(attempts)
      ensures starting.Some? && starting.value.phase.Running? <==> old(IsCurrent(starting.value.token))
      ensures !old(IsCurrent(starting.value.token)) ==> attemptToken.None?
    {
      if IsCurrent(starting.value.token) {
        starting := Some(starting.value.(phase := Running));
      } else {
        Fail();
      }
    }

    /** An attempt, however old, tries to hand over a bundle. */
    method Own(token: nat, bundle: Bundle) returns (ok: bool)
      requires Valid() && token in attempts && bundle !in owned
      modifies this`resources, this`resourceKey, this`owned
      ensures Valid()
      ensures ok <==> old(IsCurrent(token)) && old(resources).None?
      ensures ok ==> resources == Some(bundle) && owned == old(owned) + {bundle}
      ensures !ok ==> resources == old(resources) && resourceKey == old(resourceKey) && owned == old(owned)
      ensures old(Quiet()) || old(stopping).Some? ==> !ok
    {
      if !IsCurrent(token) || resources.Some? { return false; }
      resources := Some(bundle);
      resourceKey := Some(attempts[token].key);
      owned := owned + {bundle};
      return true;
    }

    /** The caller's run has ended; only a current attempt with a bundle becomes ready. */
    method RunDone(succeeded: bool)
      requires Valid() && starting.Some? && starting.value.phase.Running?
      modifies this
      ensures Valid() && epoch == old(epoch) && owned == old(owned) && attempts == old(attempts)
      ensures ready <==> succeeded && old(IsCurrent(starting.value.token)) && old(resources).Some?
    {
      if succeeded && IsCurrent(starting.value.token) && resources.Some? {
        ready := true;
        FinishStart();
      } else {
        Fail();
      }
    }

    /** A failed start gives up its token and releases the bundle it had handed over. */
    method Fail()
      requires Valid() && starting.Some? && !starting.value.phase.Cleaning?
      modifies this`ready, this`attemptToken, this`starting, this`startKey
      ensures Valid() && !ready && attemptToken.None?
      ensures resources.None? ==> starting.None?
      ensures resources.Some? ==>
                starting == Some(StartOperation(old(starting).value.token, Cleaning(resources.value)))
    {
      ready := false;
      if attemptToken == Some(starting.value.token) { attemptToken := None; }
      if resources.None? || resourceKey.None? || resourceKey != startKey {
        FinishStart();
      } else {
        starting := Some(starting.value.(phase := Cleaning(resources.value)));
      }
    }

    /** The release that a failed start waits for has completed, or failed itself. */
    method CleanupDone(succeeded: bool)
      requires Valid() && starting.Some? && starting.value.phase.Cleaning?
      modifies this
      ensures Valid() && epoch == old(epoch) && owned == old(owned) && starting.None? && !ready
      ensures succeeded ==> Quiet() && released == old(released) + {old(starting).value.phase.bundle}
      ensures !succeeded ==> resources == old(resources) && released == old(released)
    {
      if succeeded { ReleasedExact(starting.value.phase.bundle); }
      FinishStart();
    }

    method FinishStart()
      requires NothingLeaked() && starting.Some?
      modifies this`starting, this`startKey, this`attemptToken
      ensures starting.None? && startKey.None?
      ensures var token := Some(old(starting).value.token);
              attemptToken == if resources.None? && old(attemptToken) == token then None else old(attemptToken)
    {
      var token := starting.value.token;
      starting := None;
      startKey := None;
      if resources.None? && attemptToken == Some(token) { attemptToken := None; }
    }

    /** Stop invalidates the current attempt at once; a second stop joins the first. */
    method Stop()
      requires Valid()
      modifies this`epoch, this`ready, this`stopping
      ensures Valid() && stopping.Some? && !ready
      ensures old(stopping).Some? ==> stopping == old(stopping) && epoch == old(epoch)
      ensures forall t | t in attempts :: !IsCurrent(t)
      ensures old(Quiet()) ==> Quiet()
    {
      if stopping.Some? { return; }
      epoch := epoch + 1;
      ready := false;
      stopping := Some(Joining);
    }

    /** The start that the stop waits for has ended; what it left is released next. */
    method StopJoined()
      requires Valid() && stopping == Some(Joining) && starting.None?
      modifies this`stopping
      ensures Valid()
      ensures resources.Some? ==> stopping == Some(Releasing(resources.value))
      ensures resources.None? ==> stopping.None? && Quiet()
    {
      stopping := if resources.Some? then Some(Releasing(resources.value)) else None;
    }

    /** Once a stop has succeeded nothing is held, and nothing can be handed over until a new start. */
    method StopReleased(succeeded: bool)
      requires Valid() && stopping.Some? && stopping.value.Releasing?
      modifies this
      ensures Valid() && stopping.None? && !ready && owned == old(owned)
      ensures succeeded ==> Quiet() && released == owned
      ensures !succeeded ==> resources == old(resources) && released == old(released)
    {
      if succeeded { ReleasedExact(stopping.value.bundle); }
      stopping := None;
    }

    /** The bundle is forgotten only after its release, and only if it is still the one held. */
    method ReleasedExact(bundle: Bundle)
      requires NothingLeaked() && resources == Some(bundle)
      modifies this`resources, this`resourceKey, this`attemptToken, this`ready, this`released
      ensures NothingLeaked() && resources.None? && resourceKey.None? && attemptToken.None? && !ready
      ensures released == old(released) + {bundle} == owned
    {
      released := released + {bundle};
      if resources != Some(bundle) { return; }
      resources := None;
      resourceKey := None;
      attemptToken := None;
      ready := false;
    }
  }
}
