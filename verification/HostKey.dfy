/** Trust on first use of CMX host keys: one pinned key for each VM, and quarantine. */
module HostKey {
  import opened Options

  /** A presented key; Plain holds its wire form. */
  datatype Key = Missing | Certificate(blob: string) | Plain(blob: string)

  /** Rendering a plain key as an authorized-keys line, and reading such a line. */
  datatype Codec = Codec(encode: string -> string, decode: string -> Option<string>)

  ghost predicate CodecOk(codec: Codec) {
    forall blob: string :: codec.encode(blob) != "" && codec.decode(codec.encode(blob)) == Some(blob)
  }

  /** machine_ssh_host_key: the pin, whether it was enrolled, and the quarantine reason. */
  datatype Identity = Identity(hostKey: Option<string>, enrolled: bool, failure: Option<string>)

  /** machine_pool: the type and the mark of whoever created the enrollment. */
  datatype Machine = Machine(cmx: bool, source: Option<string>)

  datatype State = State(machines: map<string, Machine>, identities: map<string, Identity>)

  datatype Outcome = Accepted | Enrolled | Rejected(reason: string)

  // ---------------------------------------------------------------------
  // One handshake
  // ---------------------------------------------------------------------

  /** Why the key is refused; empty when it is not. */
  function HostKeyFailure(codec: Codec, stored: Option<string>, enrolled: bool, presented: Key): string {
    if presented == Missing then "missing_presented_key"
    else if presented.Certificate? then "unexpected_certificate"
    else if !enrolled then if stored.Some? then "inconsistent_enrollment" else ""
    else if stored == None || stored.value == "" then "missing_pinned_key"
    else if codec.decode(stored.value) == None then "malformed_pinned_key"
    else if codec.decode(stored.value).value != presented.blob then "key_changed"
    else ""
  }

  function Verify(codec: Codec, s: State, vm: string, presented: Key): (State, Outcome) {
    if vm !in s.identities || vm !in s.machines || !s.machines[vm].cmx then (s, Rejected("missing_enrollment"))
    else
      var row := s.identities[vm];
      if row.failure.Some? then (s, Rejected("quarantined"))
      else
        var reason := HostKeyFailure(codec, row.hostKey, row.enrolled, presented);
        if reason != "" then (s.(identities := s.identities[vm := row.(failure := Some(reason))]), Rejected(reason))
        else if row.enrolled then (s, Accepted)
        else (s.(identities := s.identities[vm := row.(hostKey := Some(codec.encode(presented.blob)), enrolled := true)]), Enrolled)
  }

  class IdentityStore {
    var machines: map<string, Machine>
    var identities: map<string, Identity>

    constructor ()
      ensures Rows() == State(map[], map[])
    {
      machines, identities := map[], map[];
    }

    function Rows(): State
      reads this
    {
      State(machines, identities)
    }

    /** One transaction under the lock of the identity row. */
    method VerifyCMXHostKey(codec: Codec, vm: string, presented: Key) returns (outcome: Outcome)
      modifies this`identities
      ensures (Rows(), outcome) == Verify(codec, old(Rows()), vm, presented)
    {
      if vm !in identities || vm !in machines || !machines[vm].cmx {
        return Rejected("missing_enrollment");
      }
      var row := identities[vm];
      if row.failure.Some? {
        return Rejected("quarantined");
      }
      var reason := HostKeyFailure(codec, row.hostKey, row.enrolled, presented);
      if reason != "" {
        identities := identities[vm := row.(failure := Some(reason))];
        return Rejected(reason);
      }
      if row.enrolled {
        return Accepted;
      }
      var encoded := codec.encode(presented.blob);
      identities := identities[vm := row.(hostKey := Some(encoded), enrolled := true)];
      return Enrolled;
    }

    /** Startup: machines without a mark get one, and an enrollment unless they have it. */
    method Migrate()
      modifies this
      ensures Rows() == Migrated(old(Rows()))
    {
      var legacy := set vm | vm in machines && NeedsMark(machines[vm]);
      ghost var before := Rows();
      machines := map vm | vm in machines :: if NeedsMark(machines[vm]) then machines[vm].(source := Some("legacy")) else machines[vm];
      var left := legacy;
      while left != {}
        invariant left <= legacy
        invariant machines == Migrated(before).machines
        invariant identities == Enrolling(before.identities, legacy - left)
        decreases left
      {
        var vm :| vm in left;
        assert legacy - (left - {vm}) == (legacy - left) + {vm};
        if vm !in identities {
          identities := identities[vm := Identity(None, false, None)];
        }
        left := left - {vm};
      }
      assert legacy - {} == legacy;
    }
  }

  predicate NeedsMark(m: Machine) {
    m.cmx && m.source == None
  }

  /** INSERT ... ON CONFLICT DO NOTHING. */
  function Enrolling(identities: map<string, Identity>, vms: set<string>): map<string, Identity> {
    map vm | vm in identities.Keys + vms :: if vm in identities then identities[vm] else Identity(None, false, None)
  }

  function Migrated(s: State): State {
    State(map vm | vm in s.machines :: if NeedsMark(s.machines[vm]) then s.machines[vm].(source := Some("legacy")) else s.machines[vm],
          Enrolling(s.identities, set vm | vm in s.machines && NeedsMark(s.machines[vm])))
  }

  /** Both rows are inserted, or neither when one exists. */
  function Provisioned(s: State, vm: string): State {
    if vm in s.machines || vm in s.identities then s
    else State(s.machines[vm := Machine(true, Some("provisioning"))], s.identities[vm := Identity(None, false, None)])
  }

  // ---------------------------------------------------------------------
  // Runs
  // ---------------------------------------------------------------------

  /** Handshakes of any VM, provisioning, startups, and pool rows that come and go. */
  datatype Action =
    | Handshake(vm: string, key: Key)
    | Provision(vm: string)
    | Migration
    | InsertMachine(vm: string, machine: Machine)
    | RemoveMachine(vm: string)

  function Apply(codec: Codec, s: State, a: Action): State {
    match a
    case Handshake(vm, key) => Verify(codec, s, vm, key).0
    case Provision(vm) => Provisioned(s, vm)
    case Migration => Migrated(s)
    case InsertMachine(vm, m) => if vm in s.machines then s else s.(machines := s.machines[vm := m])
    case RemoveMachine(vm) => s.(machines := s.machines - {vm})
  }

  function Run(codec: Codec, s: State, actions: seq<Action>): State
    decreases |actions|
  {
    if actions == [] then s else Run(codec, Apply(codec, s, actions[0]), actions[1..])
  }

  predicate Accepts(codec: Codec, s: State, a: Action, vm: string) {
    a.Handshake? && a.vm == vm && !Verify(codec, s, vm, a.key).1.Rejected?
  }

  /** The VM has this key pinned. */
  predicate Pinned(codec: Codec, s: State, vm: string, blob: string) {
    && vm in s.identities && s.identities[vm].enrolled
    && s.identities[vm].hostKey.Some? && codec.decode(s.identities[vm].hostKey.value) == Some(blob)
  }

  predicate Quarantined(s: State, vm: string) {
    vm in s.identities && s.identities[vm].failure.Some?
  }

  /** An accepted handshake presented a plain key, which is pinned from then on. */
  lemma AcceptPins(codec: Codec, s: State, a: Action, vm: string)
    requires CodecOk(codec) && Accepts(codec, s, a, vm)
    ensures a.key.Plain? && Pinned(codec, Apply(codec, s, a), vm, a.key.blob)
  {
  }

  lemma StepKeeps(codec: Codec, s: State, a: Action, vm: string, blob: string)
    ensures Pinned(codec, s, vm, blob) ==> Pinned(codec, Apply(codec, s, a), vm, blob)
    ensures Quarantined(s, vm) ==> Quarantined(Apply(codec, s, a), vm) && !Accepts(codec, s, a, vm)
    ensures Pinned(codec, s, vm, blob) && Accepts(codec, s, a, vm) ==> a.key == Plain(blob)
  {
  }

  lemma {:induction false} RunKeeps(codec: Codec, s: State, actions: seq<Action>, vm: string, blob: string)
    ensures Pinned(codec, s, vm, blob) ==> Pinned(codec, Run(codec, s, actions), vm, blob)
    ensures Quarantined(s, vm) ==> Quarantined(Run(codec, s, actions), vm)
    decreases |actions|
  {
    hide Apply, Pinned, Quarantined;
    if actions != [] {
      StepKeeps(codec, s, actions[0], vm, blob);
      RunKeeps(codec, Apply(codec, s, actions[0]), actions[1..], vm, blob);
    }
  }

  /** Any two accepted handshakes of a VM, whatever happens between them, presented the
      same key. */
  lemma AcceptedKeysAgree(codec: Codec, s: State, first: Action, between: seq<Action>, second: Action, vm: string)
    requires CodecOk(codec) && Accepts(codec, s, first, vm)
    requires Accepts(codec, Run(codec, Apply(codec, s, first), between), second, vm)
    ensures first.key == second.key
  {
    AcceptPins(codec, s, first, vm);
    hide Apply, Accepts, Pinned, Run;
    var t := Apply(codec, s, first);
    RunKeeps(codec, t, between, vm, first.key.blob);
    StepKeeps(codec, Run(codec, t, between), second, vm, first.key.blob);
  }

  /** A handshake refused for its key quarantines the VM: no later one is accepted, through
      any number of startups, removals and provisioning. */
  lemma QuarantineIsFinal(codec: Codec, s: State, refused: Action, between: seq<Action>, later: Action, vm: string)
    requires refused.Handshake? && refused.vm == vm && Verify(codec, s, vm, refused.key).1.Rejected?
    requires Verify(codec, s, vm, refused.key).1.reason != "missing_enrollment"
    ensures !Accepts(codec, Run(codec, Apply(codec, s, refused), between), later, vm)
  {
    var t := Apply(codec, s, refused);
    assert Quarantined(t, vm);
    hide Apply, Accepts, Quarantined, Run;
    RunKeeps(codec, t, between, vm, "");
    StepKeeps(codec, Run(codec, t, between), later, vm, "");
  }

  // ---------------------------------------------------------------------
  // When a handshake is accepted
  // ---------------------------------------------------------------------

  /** The VM is in the pool and not quarantined, and this key is its pin. */
  predicate Trusted(codec: Codec, s: State, vm: string, blob: string) {
    && vm in s.machines && s.machines[vm].cmx && vm in s.identities && s.identities[vm].failure == None
    && s.identities[vm].enrolled && s.identities[vm].hostKey.Some? && s.identities[vm].hostKey.value != ""
    && codec.decode(s.identities[vm].hostKey.value) == Some(blob)
  }

  /** The VM is in the pool, enrolled and not quarantined, and waits for its first key. */
  predicate Awaiting(s: State, vm: string) {
    vm in s.machines && s.machines[vm].cmx && vm in s.identities && s.identities[vm] == Identity(None, false, None)
  }

  /** A handshake is accepted iff it presents a plain key and the VM trusts this key or waits
      for its first one. */
  lemma AcceptsIff(codec: Codec, s: State, vm: string, key: Key)
    ensures Accepts(codec, s, Handshake(vm, key), vm) <==> key.Plain? && (Trusted(codec, s, vm, key.blob) || Awaiting(s, vm))
  {
  }

  /** The step neither takes the VM out of the pool nor presents another key for it. */
  predicate Undisturbed(a: Action, vm: string, key: Key) {
    !(a.RemoveMachine? && a.vm == vm) && (a.Handshake? && a.vm == vm ==> a.key == key)
  }

  lemma TrustedStep(codec: Codec, s: State, a: Action, vm: string, blob: string)
    requires Trusted(codec, s, vm, blob) && Undisturbed(a, vm, Plain(blob))
    ensures Trusted(codec, Apply(codec, s, a), vm, blob)
  {
  }

  lemma {:induction false} TrustedRun(codec: Codec, s: State, actions: seq<Action>, vm: string, blob: string)
    requires Trusted(codec, s, vm, blob) && forall a | a in actions :: Undisturbed(a, vm, Plain(blob))
    ensures Trusted(codec, Run(codec, s, actions), vm, blob)
    decreases |actions|
  {
    hide Apply, Trusted, Undisturbed;
    if actions != [] {
      TrustedStep(codec, s, actions[0], vm, blob);
      assert forall a | a in actions[1..] :: a in actions;
      TrustedRun(codec, Apply(codec, s, actions[0]), actions[1..], vm, blob);
    }
  }

  /** An accepted key is accepted again, through any steps that leave the VM in the pool and
      present no other key for it. */
  lemma AcceptedAgain(codec: Codec, s: State, vm: string, key: Key, between: seq<Action>)
    requires CodecOk(codec) && Accepts(codec, s, Handshake(vm, key), vm)
    requires forall a | a in between :: Undisturbed(a, vm, key)
    ensures Accepts(codec, Run(codec, Apply(codec, s, Handshake(vm, key)), between), Handshake(vm, key), vm)
  {
    var t := Apply(codec, s, Handshake(vm, key));
    AcceptsIff(codec, s, vm, key);
    assert Trusted(codec, t, vm, key.blob);
    hide Apply, Accepts, Trusted, Undisturbed, Run;
    TrustedRun(codec, t, between, vm, key.blob);
    AcceptsIff(codec, Run(codec, t, between), vm, key);
  }

  /** A newly provisioned VM accepts whatever plain key it presents first. */
  lemma FirstKeyAccepted(codec: Codec, s: State, vm: string, blob: string)
    requires vm !in s.machines && vm !in s.identities
    ensures Accepts(codec, Apply(codec, s, Provision(vm)), Handshake(vm, Plain(blob)), vm)
  {
    AcceptsIff(codec, Apply(codec, s, Provision(vm)), vm, Plain(blob));
  }

  /** A handshake of an enrolled VM in the pool that is not accepted quarantines it, and a
      handshake of any other VM changes nothing. */
  lemma RefusalQuarantines(codec: Codec, s: State, vm: string, key: Key)
    requires !Accepts(codec, s, Handshake(vm, key), vm)
    ensures var t := Apply(codec, s, Handshake(vm, key));
      if vm in s.machines && s.machines[vm].cmx && vm in s.identities then Quarantined(t, vm) else t == s
  {
  }

  /** A startup enrolls every unmarked CMX machine that has no enrollment yet, marks it, and
      leaves all other rows as they are. */
  lemma MigrationMeaning(s: State, vm: string)
    ensures var t := Migrated(s);
      && (vm in t.machines <==> vm in s.machines)
      && (vm in s.machines ==> t.machines[vm].cmx == s.machines[vm].cmx)
      && (vm in s.machines ==> t.machines[vm].source == if s.machines[vm].cmx && s.machines[vm].source == None then Some("legacy") else s.machines[vm].source)
      && (vm in s.identities ==> vm in t.identities && t.identities[vm] == s.identities[vm])
      && (vm !in s.identities ==> (vm in t.identities <==> vm in s.machines && s.machines[vm].cmx && s.machines[vm].source == None))
      && (vm !in s.identities && vm in t.identities ==> t.identities[vm] == Identity(None, false, None))
  {
  }
}
