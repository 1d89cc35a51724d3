/** Subscription commands and mutation outcomes (notify/src/subscription/mod.rs): the
    `Command` codec with its infallible fallback, `Mutation::active`, and the outcome of
    mutating a subscription, which may carry a new subscription state to install. The
    notification scope and the subscription object are opaque to this logic and appear as
    the type parameters `Scope` and `S`. */
module Subscription {
  import opened Common

  datatype Command = Start | Stop

  /** `From<Command> for i32`: the enum's discriminant. */
  function CommandToI32(c: Command): (x: i32)
    ensures x == 0 <==> c == Start
    ensures x == 1 <==> c == Stop
  {
    match c
    case Start => 0
    case Stop => 1
  }

  /** `From<i32> for Command`: 1 is `Stop`, and every other value falls back to `Start`. */
  function CommandFromI32(x: i32): (c: Command)
    ensures c == Stop <==> x == 1
  {
    if x == 1 then Stop else Start
  }

  /** Encoding a command and decoding it gives the command back. */
  lemma CommandRoundTrip(c: Command)
    ensures CommandFromI32(CommandToI32(c)) == c
  {
  }

  /** Decoding and re-encoding is the identity on 0 and 1 only: every other value is read as
      `Start` and comes back as 0. */
  lemma I32RoundTrip(x: i32)
    ensures CommandToI32(CommandFromI32(x)) == x <==> x == 0 || x == 1
    ensures x != 1 ==> CommandToI32(CommandFromI32(x)) == 0
  {
  }

  /** `Display for Command`. */
  function CommandLabel(c: Command): (text: string)
    ensures |text| > 0
  {
    match c
    case Start => "start"
    case Stop => "stop"
  }

  /** Distinct commands display differently. */
  lemma CommandLabelInjective(a: Command, b: Command)
    requires CommandLabel(a) == CommandLabel(b)
    ensures a == b
  {
  }

  /** A start or stop command over a notification scope. */
  datatype Mutation<Scope> = Mutation(command: Command, scope: Scope) {
    /** `Mutation::active`: the command is the one encoded as 0. */
    predicate Active(): (r: bool)
      ensures r <==> CommandToI32(command) == 0
    {
      command == Start
    }
  }

  /** A mutation is inactive exactly when its command decodes from 1. */
  lemma InactiveIffStopCode<Scope>(m: Mutation<Scope>)
    ensures !m.Active() <==> m.command == CommandFromI32(1)
  {
  }

  /** The result of applying a mutation to a subscription: the new subscription state, when
      the state changed, and the mutations to propagate. */
  datatype MutationOutcome<S, Scope> = MutationOutcome(mutated: Option<S>, mutations: seq<Mutation<Scope>>)

  /** `has_new_state`: the outcome carries a state, so it differs from the outcome with the
      same mutations and no state. */
  predicate HasNewState<S, Scope>(o: MutationOutcome<S, Scope>): (r: bool)
    ensures r <==> o != MutationOutcome(None, o.mutations)
  {
    o.mutated.Some?
  }

  /** `has_changes`: a new state or some mutation to propagate, that is, anything but the
      empty outcome. */
  predicate HasChanges<S, Scope>(o: MutationOutcome<S, Scope>): (r: bool)
    ensures r <==> o != MutationOutcome(None, [])
  {
    HasNewState(o) || |o.mutations| > 0
  }

  /** `MutationOutcome::new` (and `Default`): nothing changed. */
  function NewOutcome<S, Scope>(): (o: MutationOutcome<S, Scope>)
    ensures !HasChanges(o)
  {
    MutationOutcome(None, [])
  }

  /** `with_mutations`: mutations to propagate without a new state. */
  function WithMutations<S, Scope>(mutations: seq<Mutation<Scope>>): (o: MutationOutcome<S, Scope>)
    ensures !HasNewState(o) && o.mutations == mutations
    ensures HasChanges(o) <==> |mutations| > 0
  {
    MutationOutcome(None, mutations)
  }

  /** `with_mutated`: a new state, which always counts as a change. */
  function WithMutated<S, Scope>(mutated: S, mutations: seq<Mutation<Scope>>): (o: MutationOutcome<S, Scope>)
    ensures HasNewState(o) && HasChanges(o)
    ensures o.mutated == Some(mutated) && o.mutations == mutations
  {
    MutationOutcome(Some(mutated), mutations)
  }

  /** The subscription `apply_to` leaves in its target. */
  function Applied<S, Scope>(o: MutationOutcome<S, Scope>, target: S): S {
    match o.mutated
    case Some(s) => s
    case None => target
  }

  /** An outcome without changes leaves the subscription alone, applying an outcome twice is
      applying it once, and an outcome with a new state installs that state whatever the
      target was. */
  lemma AppliedProperties<S, Scope>(o: MutationOutcome<S, Scope>, target: S, other: S)
    ensures !HasChanges(o) ==> Applied(o, target) == target
    ensures Applied(o, Applied(o, target)) == Applied(o, target)
    ensures HasNewState(o) ==> Applied(o, target) == Applied(o, other)
    ensures !HasNewState(o) ==> Applied(o, target) == target
  {
  }

  /** The `&mut DynSubscription` that `apply_to` writes through. */
  class SubscriptionSlot<S> {
    var subscription: S

    constructor(subscription: S)
      ensures this.subscription == subscription
    {
      this.subscription := subscription;
    }
  }

  /** `MutationOutcome::apply_to`: installs the new state in the target, when there is one,
      and returns the outcome itself. */
  method ApplyTo<S, Scope>(o: MutationOutcome<S, Scope>, target: SubscriptionSlot<S>) returns (r: MutationOutcome<S, Scope>)
    modifies target
    ensures r == o
    ensures target.subscription == Applied(o, old(target.subscription))
    ensures o.mutated.Some? ==> target.subscription == o.mutated.value
    ensures o.mutated.None? ==> target.subscription == old(target.subscription)
  {
    if o.mutated.Some? {
      target.subscription := o.mutated.value;
    }
    return o;
  }
}
