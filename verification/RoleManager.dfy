/** Role definitions and stamped role assignments of one daemon. */
module RoleManagers {
  import opened Wrappers
  import opened Text
  import opened HybridClocks

  /** Decoded peer identities, compared only for equality. */
  type PeerId = nat
  type Permission = bv32

  datatype Role = Role(name: string, permissions: Permission)

  datatype Assignment = Assignment(roleNames: seq<string>, hlcTs: int)

  /** The message that announces an assignment. */
  datatype RoleAssignmentMsg = RoleAssignmentMsg(peer: PeerId, roleNames: seq<string>, hlcTs: int)

  /** An entry of a received snapshot: nil, with an undecodable peer id, or usable. */
  datatype SnapshotEntry = NilEntry | BadPeer | Entry(msg: RoleAssignmentMsg)

  type Definitions = map<string, Role>
  type Assignments = map<PeerId, Assignment>

  const PERM_VIEW: Permission := 1
  const PERM_CHAT: Permission := 2
  const PERM_KICK_USER: Permission := 4
  const PERM_BAN_USER: Permission := 8
  const PERM_STREAM: Permission := 256
  const PERM_QUEUE: Permission := 4096
  const PERM_ALL: Permission := 8191

  const DEFAULT_DEFINITIONS: Definitions := map[
    "admin" := Role("Admin", PERM_ALL),
    "moderator" := Role("Moderator", 4 | 8 | 16 | 32 | 64 | 128),
    "streamer" := Role("Streamer", 256 | 512 | 1024 | 2048 | 4096),
    "viewer" := Role("Viewer", 1 | 2)
  ]

  predicate Has(p: Permission, required: Permission) {
    p & required != 0
  }

  // ----- names -----

  function LowerChar(c: char): char {
    if 'A' <= c <= 'Z' then (c as int + 32) as char else c
  }

  function Lower(s: string): string {
    seq(|s|, i requires 0 <= i < |s| => LowerChar(s[i]))
  }

  function Normalize(name: string): string {
    Lower(Trim(name))
  }

  /** The normalized names, provided every one of them is defined. */
  function NormalizeAll(defs: Definitions, names: seq<string>): Option<seq<string>> {
    if names == [] then Some([])
    else
      var name := Normalize(names[|names| - 1]);
      var front := NormalizeAll(defs, names[..|names| - 1]);
      if name !in defs then None
      else match front
        case None => None
        case Some(f) => Some(if name != "" then f + [name] else f)
  }

  // ----- masks -----

  function MaskOfNames(defs: Definitions, names: seq<string>): Permission {
    if names == [] then 0
    else
      var name := names[|names| - 1];
      var front := MaskOfNames(defs, names[..|names| - 1]);
      if name in defs then front | defs[name].permissions else front
  }

  lemma OneMoreMask(defs: Definitions, front: seq<string>, last: string)
    ensures MaskOfNames(defs, front + [last])
         == if last in defs then MaskOfNames(defs, front) | defs[last].permissions else MaskOfNames(defs, front)
  {
    assert (front + [last])[..|front|] == front;
  }

  function MaskOf(defs: Definitions, asg: Assignments, peer: PeerId): Permission {
    if peer in asg then MaskOfNames(defs, asg[peer].roleNames) else 0
  }

  // ----- local changes -----

  predicate ChangesRoles(defs: Definitions, asg: Assignments, target: PeerId, names: seq<string>) {
    var norm := NormalizeAll(defs, names);
    norm.Some? && (target !in asg || asg[target].roleNames != norm.value)
  }

  /** The assignments after `target` was given `names`, at stamp `ts` if that changes anything. */
  function SetRoles(defs: Definitions, asg: Assignments, target: PeerId, names: seq<string>, ts: int): Assignments {
    if ChangesRoles(defs, asg, target, names) then
      var norm := NormalizeAll(defs, names).value;
      if |norm| > 0 then asg[target := Assignment(norm, ts)] else asg - {target}
    else asg
  }

  /** The peer has the announced roles at the announced stamp, or no entry if there are none. */
  predicate IsStored(asg: Assignments, m: RoleAssignmentMsg) {
    if m.roleNames == [] then m.peer !in asg
    else m.peer in asg && asg[m.peer] == Assignment(m.roleNames, m.hlcTs)
  }

  // ----- the gate for received assignments -----

  function ApplyOne(defs: Definitions, asg: Assignments, m: RoleAssignmentMsg): Assignments {
    match NormalizeAll(defs, m.roleNames)
    case None => asg
    case Some(names) =>
      if m.peer !in asg || m.hlcTs > asg[m.peer].hlcTs then
        if |names| > 0 then asg[m.peer := Assignment(names, m.hlcTs)] else asg - {m.peer}
      else asg
  }

  predicate Accepts(defs: Definitions, asg: Assignments, m: RoleAssignmentMsg) {
    NormalizeAll(defs, m.roleNames).Some? && (m.peer !in asg || m.hlcTs > asg[m.peer].hlcTs)
  }

  function ApplyAll(defs: Definitions, asg: Assignments, ms: seq<RoleAssignmentMsg>): Assignments {
    if ms == [] then asg else ApplyOne(defs, ApplyAll(defs, asg, ms[..|ms| - 1]), ms[|ms| - 1])
  }

  /** The usable messages of a snapshot, in order. */
  function Usable(snapshot: seq<SnapshotEntry>): seq<RoleAssignmentMsg> {
    if snapshot == [] then []
    else
      var front := Usable(snapshot[..|snapshot| - 1]);
      match snapshot[|snapshot| - 1]
      case Entry(m) => front + [m]
      case _ => front
  }

  // ----- received definitions -----

  /** Later entries win; entries without a name (and nil ones) are skipped. */
  function DefinitionsFrom(update: seq<Option<Role>>): Definitions {
    if update == [] then map[]
    else
      var front := DefinitionsFrom(update[..|update| - 1]);
      match update[|update| - 1]
      case Some(role) => if role.name == "" then front else front[Lower(role.name) := role]
      case None => front
  }

  // ----- integrity -----

  /** Every assigned name is defined, and no stored list is empty. */
  ghost predicate Integrity(defs: Definitions, asg: Assignments) {
    && "" !in defs
    && forall p :: p in asg ==> asg[p].roleNames != [] && forall n :: n in asg[p].roleNames ==> n in defs
  }

  function Without(names: seq<string>, name: string): seq<string> {
    if names == [] then []
    else
      var front := Without(names[..|names| - 1], name);
      if names[|names| - 1] != name then front + [names[|names| - 1]] else front
  }

  class RoleManager {
    var definitions: Definitions
    var assignments: Assignments
    const clock: HybridClock

    constructor (clock: HybridClock)
      ensures this.clock == clock
      ensures definitions == DEFAULT_DEFINITIONS && assignments == map[]
      ensures Integrity(definitions, assignments)
    {
      this.clock := clock;
      definitions := DEFAULT_DEFINITIONS;
      assignments := map[];
    }

    method GetPermissionsForPeer(peer: PeerId) returns (p: Permission)
      ensures p == MaskOf(definitions, assignments, peer)
    {
      p := 0;
      if peer !in assignments {
        return;
      }
      var names := assignments[peer].roleNames;
      for i := 0 to |names|
        invariant p == MaskOfNames(definitions, names[..i])
      {
        OneMoreMask(definitions, names[..i], names[i]);
        assert names[..i + 1] == names[..i] + [names[i]];
        if names[i] in definitions {
          p := p | definitions[names[i]].permissions;
        }
      }
      assert names[..|names|] == names;
    }

    /** Trims, lowers and checks the names; stops at the first undefined one. */
    method Validate(names: seq<string>) returns (normalized: Option<seq<string>>)
      ensures normalized == NormalizeAll(definitions, names)
    {
      var out: seq<string> := [];
      for i := 0 to |names|
        invariant NormalizeAll(definitions, names[..i]) == Some(out)
      {
        assert names[..i + 1][..i] == names[..i];
        var norm := Normalize(names[i]);
        if norm !in definitions {
          UndefinedNameIsFinal(definitions, names, i);
          return None;
        }
        if norm != "" {
          out := out + [norm];
        }
      }
      assert names[..|names|] == names;
      return Some(out);
    }

    /** Overwrites a peer's roles locally; reports the assignment to announce if anything changed. */
    method SetPeerRoles(target: PeerId, names: seq<string>, now: int) returns (msg: Result<Option<RoleAssignmentMsg>>)
      modifies this`assignments, clock
      ensures msg.Err? <==> NormalizeAll(definitions, names).None?
      ensures var ts := Pack(Tick(old(clock.State()), now));
        && assignments == SetRoles(definitions, old(assignments), target, names, ts)
        && (if ChangesRoles(definitions, old(assignments), target, names) then
              && msg == Ok(Some(RoleAssignmentMsg(target, NormalizeAll(definitions, names).value, ts)))
              && clock.State() == Tick(old(clock.State()), now)
            else
              (msg.Ok? ==> msg.value.None?) && clock.State() == old(clock.State()))
      ensures msg.Ok? && msg.value.Some? ==> IsStored(assignments, msg.value.value)
      ensures old(Integrity(definitions, assignments)) ==> Integrity(definitions, assignments)
    {
      var norm := Validate(names);
      if norm.None? {
        return Err;
      }
      NormalizedNamesAreDefined(definitions, names);
      var changed := target !in assignments || assignments[target].roleNames != norm.value;
      if changed {
        var ts := clock.GetCurrentHLC(now);
        if |norm.value| > 0 {
          assignments := assignments[target := Assignment(norm.value, ts)];
        } else {
          assignments := assignments - {target};
        }
        return Ok(Some(RoleAssignmentMsg(target, norm.value, ts)));
      }
      return Ok(None);
    }

    /** All definitions as they are announced: each one once, in no particular order. */
    method AllDefinitions() returns (update: seq<Role>)
      ensures Announces(update, definitions)
    {
      update := [];
      ghost var keys: seq<string> := [];
      var todo := definitions.Keys;
      while todo != {}
        invariant todo <= definitions.Keys
        invariant ListsKeys(update, keys, definitions, definitions.Keys - todo)
        decreases |todo|
      {
        var key :| key in todo;
        ListsOneMore(update, keys, definitions, definitions.Keys - todo, key);
        update, keys := update + [definitions[key]], keys + [key];
        todo := todo - {key};
        assert definitions.Keys - todo == definitions.Keys - (todo + {key}) + {key};
      }
      assert definitions.Keys - todo == definitions.Keys;
    }

    /** Adds or overwrites one definition, and announces all of them. */
    method UpdateDefinition(name: string, permissions: Permission) returns (update: Result<seq<Role>>)
      modifies this`definitions
      ensures update.Ok? <==> Normalize(name) != ""
      ensures definitions == if update.Ok? then old(definitions)[Normalize(name) := Role(name, permissions)] else old(definitions)
      ensures update.Ok? ==> Announces(update.value, definitions)
      ensures old(Integrity(definitions, assignments)) ==> Integrity(definitions, assignments)
    {
      var normalized := Normalize(name);
      if normalized == "" {
        return Err;
      }
      definitions := definitions[normalized := Role(name, permissions)];
      var all := AllDefinitions();
      return Ok(all);
    }

    /**
     Removes a definition and strips the role from every peer. `walls` are the successive wall
     readings the clock would take; peers are visited in no particular order.
     */
    method RemoveDefinition(roleName: string, walls: seq<int>)
      returns (update: seq<Role>, affected: Result<seq<RoleAssignmentMsg>>)
      requires |assignments| <= |walls|
      modifies this, clock
      ensures affected.Err? <==> Normalize(roleName) !in old(definitions)
      ensures affected.Err? ==> definitions == old(definitions) && assignments == old(assignments)
      ensures affected.Ok? ==> definitions == old(definitions) - {Normalize(roleName)} && Announces(update, definitions)
      ensures affected.Ok? ==> IsRemoval(old(assignments), assignments, Normalize(roleName), affected.value)
      ensures affected.Ok? ==> StampedInOrder(affected.value, old(clock.State()), walls)
      ensures old(Integrity(definitions, assignments)) ==> Integrity(definitions, assignments)
    {
      var removed := Normalize(roleName);
      if removed !in definitions {
        return [], Err;
      }
      definitions := definitions - {removed};
      update := AllDefinitions();
      var msgs := StripAll(removed, walls);
      RemovalKeepsIntegrity(old(definitions), old(assignments), assignments, removed, msgs);
      return update, Ok(msgs);
    }

    /** Visits every peer and strips the removed role. */
    method StripAll(removed: string, walls: seq<int>) returns (msgs: seq<RoleAssignmentMsg>)
      requires |assignments| <= |walls|
      modifies this`assignments, clock
      ensures IsRemoval(old(assignments), assignments, removed, msgs)
      ensures StampedInOrder(msgs, old(clock.State()), walls)
    {
      msgs := [];
      ghost var before, start := assignments, clock.State();
      var todo := assignments.Keys;
      while todo != {}
        invariant todo <= before.Keys
        invariant RemovedSoFar(before, assignments, removed, msgs, before.Keys - todo)
        invariant |msgs| + |todo| <= |walls|
        invariant clock.State() == Ticks(start, walls, |msgs|)
        invariant StampedInOrder(msgs, start, walls)
        decreases |todo|
      {
        var peer :| peer in todo;
        ghost var done, asg, c, told := before.Keys - todo, assignments, clock.State(), msgs;
        var msg := StripPeer(peer, removed, walls[|msgs|]);
        if msg.Some? {
          HolderStripped(before, asg, removed, msgs, done, peer, msg.value.hlcTs);
          msgs := msgs + [msg.value];
        }
        StampAppended(told, msgs, msg, c, clock.State(), start, walls);
        todo := todo - {peer};
        assert before.Keys - todo == done + {peer};
      }
    }

    /** The loop body of `RemoveDefinition` for one peer. */
    method StripPeer(peer: PeerId, removed: string, now: int) returns (msg: Option<RoleAssignmentMsg>)
      requires peer in assignments
      modifies this`assignments, clock
      ensures
        var names := Without(old(assignments)[peer].roleNames, removed);
        if removed !in old(assignments)[peer].roleNames then
          msg == None && assignments == old(assignments) && clock.State() == old(clock.State())
        else
          && clock.State() == Tick(old(clock.State()), now)
          && msg == Some(RoleAssignmentMsg(peer, names, Pack(clock.State())))
          && assignments == if names == [] then old(assignments) - {peer}
                            else old(assignments)[peer := Assignment(names, Pack(clock.State()))]
    {
      var newNames, roleWasRemoved := StripRole(assignments[peer].roleNames, removed);
      if !roleWasRemoved {
        return None;
      }
      var ts := clock.GetCurrentHLC(now);
      if |newNames| == 0 {
        assignments := assignments - {peer};
      } else {
        assignments := assignments[peer := Assignment(newNames, ts)];
      }
      return Some(RoleAssignmentMsg(peer, newNames, ts));
    }

    /** Filters one list of names. */
    method StripRole(names: seq<string>, removed: string) returns (newNames: seq<string>, roleWasRemoved: bool)
      ensures newNames == Without(names, removed)
      ensures roleWasRemoved <==> removed in names
    {
      newNames, roleWasRemoved := [], false;
      for i := 0 to |names|
        invariant newNames == Without(names[..i], removed)
        invariant roleWasRemoved <==> removed in names[..i]
      {
        assert names[..i + 1][..i] == names[..i];
        if names[i] != removed {
          newNames := newNames + [names[i]];
        } else {
          roleWasRemoved := true;
        }
      }
      assert names[..|names|] == names;
    }

    /** Replaces the definitions by a received set. Assignments are left as they are. */
    method ApplyDefinitionsUpdate(update: Option<seq<Option<Role>>>) returns (ok: bool)
      modifies this`definitions
      ensures ok <==> update.Some?
      ensures definitions == if ok then DefinitionsFrom(update.value) else old(definitions)
    {
      if update.None? {
        return false;
      }
      var entries := update.value;
      var newDefinitions: Definitions := map[];
      for i := 0 to |entries|
        invariant newDefinitions == DefinitionsFrom(entries[..i])
        invariant definitions == old(definitions)
      {
        assert entries[..i + 1][..i] == entries[..i];
        if entries[i].Some? && entries[i].value.name != "" {
          newDefinitions := newDefinitions[Lower(entries[i].value.name) := entries[i].value];
        }
      }
      assert entries[..|entries|] == entries;
      definitions := newDefinitions;
      return true;
    }

    /** Applies a received assignment if it is newer than what is stored. */
    method ApplyPeerAssignment(msg: RoleAssignmentMsg) returns (changed: Result<bool>)
      modifies this`assignments
      ensures assignments == ApplyOne(definitions, old(assignments), msg)
      ensures changed.Err? <==> NormalizeAll(definitions, msg.roleNames).None?
      ensures changed == Ok(true) <==> Accepts(definitions, old(assignments), msg)
      ensures old(Integrity(definitions, assignments)) ==> Integrity(definitions, assignments)
    {
      var norm := Validate(msg.roleNames);
      if norm.None? {
        return Err;
      }
      NormalizedNamesAreDefined(definitions, msg.roleNames);
      if msg.peer !in assignments || msg.hlcTs > assignments[msg.peer].hlcTs {
        if |norm.value| > 0 {
          assignments := assignments[msg.peer := Assignment(norm.value, msg.hlcTs)];
        } else {
          assignments := assignments - {msg.peer};
        }
        return Ok(true);
      }
      return Ok(false);
    }

    /** Applies every usable entry of a received snapshot, each through its own gate. */
    method ApplyAllAssignmentsSnapshot(snapshot: Option<seq<SnapshotEntry>>) returns (ok: bool)
      modifies this`assignments
      ensures ok <==> snapshot.Some?
      ensures assignments == if ok then ApplyAll(definitions, old(assignments), Usable(snapshot.value)) else old(assignments)
      ensures old(Integrity(definitions, assignments)) ==> Integrity(definitions, assignments)
    {
      if snapshot.None? {
        return false;
      }
      var entries := snapshot.value;
      for i := 0 to |entries|
        invariant assignments == ApplyAll(definitions, old(assignments), Usable(entries[..i]))
        invariant old(Integrity(definitions, assignments)) ==> Integrity(definitions, assignments)
      {
        assert entries[..i + 1][..i] == entries[..i];
        if entries[i].Entry? {
          var done := Usable(entries[..i]);
          assert (done + [entries[i].msg])[..|done|] == done;
          var _ := ApplyPeerAssignment(entries[i].msg);
        }
      }
      assert entries[..|entries|] == entries;
      return true;
    }
  }

  // ----- announced definitions -----

  /** `update` holds the definitions of the distinct keys in `done`, in the order of `keys`. */
  ghost predicate ListsKeys(update: seq<Role>, keys: seq<string>, defs: Definitions, done: set<string>) {
    && |keys| == |update|
    && (forall k :: k in done <==> k in keys)
    && (forall i, j :: 0 <= i < j < |keys| ==> keys[i] != keys[j])
    && (forall i :: 0 <= i < |keys| ==> keys[i] in defs && update[i] == defs[keys[i]])
  }

  /** `update` holds every definition exactly once. */
  ghost predicate Announces(update: seq<Role>, defs: Definitions) {
    exists keys :: ListsKeys(update, keys, defs, defs.Keys)
  }

  lemma ListsOneMore(update: seq<Role>, keys: seq<string>, defs: Definitions, done: set<string>, key: string)
    requires ListsKeys(update, keys, defs, done) && key in defs && key !in done
    ensures ListsKeys(update + [defs[key]], keys + [key], defs, done + {key})
  {
    assert forall k :: k in keys + [key] <==> k in keys || k == key;
  }

  // ----- what removing a role means -----

  /** The messages carry the successive stamps of a clock that starts at `s`. */
  ghost predicate StampedInOrder(msgs: seq<RoleAssignmentMsg>, s: Stamp, walls: seq<int>) {
    |msgs| <= |walls| && forall i :: 0 <= i < |msgs| ==> msgs[i].hlcTs == Pack(Ticks(s, walls, i + 1))
  }

  lemma StampAppended(told: seq<RoleAssignmentMsg>, msgs: seq<RoleAssignmentMsg>, msg: Option<RoleAssignmentMsg>,
                      c: Stamp, c': Stamp, start: Stamp, walls: seq<int>)
    requires StampedInOrder(told, start, walls) && |told| < |walls| && c == Ticks(start, walls, |told|)
    requires msgs == if msg.Some? then told + [msg.value] else told
    requires c' == if msg.Some? then Tick(c, walls[|told|]) else c
    requires msg.Some? ==> msg.value.hlcTs == Pack(c')
    ensures StampedInOrder(msgs, start, walls) && c' == Ticks(start, walls, |msgs|)
  {
  }

  /** The clock after `n` local events at the given wall readings. */
  function Ticks(s: Stamp, walls: seq<int>, n: nat): Stamp
    requires n <= |walls|
  {
    if n == 0 then s else Tick(Ticks(s, walls, n - 1), walls[n - 1])
  }

  /**
   With the peers in `done` visited: `msgs` reports each visited holder of the role exactly once,
   with the names that remain; a reported holder's entry carries those names and the reported
   stamp, or is gone; every other entry is untouched.
   */
  ghost predicate RemovedSoFar(asg: Assignments, asg': Assignments, name: string, msgs: seq<RoleAssignmentMsg>, done: set<PeerId>) {
    && done <= asg.Keys
    && asg'.Keys <= asg.Keys
    && ReportsHolders(asg, name, msgs, done)
    && (forall i :: 0 <= i < |msgs| ==> IsStripped(asg, asg', name, msgs[i]))
    && OthersUntouched(asg, asg', name, done)
  }

  ghost predicate OthersUntouched(asg: Assignments, asg': Assignments, name: string, done: set<PeerId>) {
    forall p :: p in asg && (p !in done || name !in asg[p].roleNames) ==> p in asg' && asg'[p] == asg[p]
  }

  ghost predicate ReportsHolders(asg: Assignments, name: string, msgs: seq<RoleAssignmentMsg>, done: set<PeerId>)
    requires done <= asg.Keys
  {
    && (forall i, j :: 0 <= i < j < |msgs| ==> msgs[i].peer != msgs[j].peer)
    && (forall i :: 0 <= i < |msgs| ==> msgs[i].peer in done)
    && (forall p :: p in done && name in asg[p].roleNames ==> Reports(msgs, p))
  }

  ghost predicate Reports(msgs: seq<RoleAssignmentMsg>, p: PeerId) {
    exists i :: 0 <= i < |msgs| && msgs[i].peer == p
  }

  ghost predicate IsStripped(asg: Assignments, asg': Assignments, name: string, m: RoleAssignmentMsg) {
    && m.peer in asg && name in asg[m.peer].roleNames
    && m.roleNames == Without(asg[m.peer].roleNames, name)
    && if m.roleNames == [] then m.peer !in asg'
       else m.peer in asg' && asg'[m.peer] == Assignment(m.roleNames, m.hlcTs)
  }

  ghost predicate IsRemoval(asg: Assignments, asg': Assignments, name: string, msgs: seq<RoleAssignmentMsg>) {
    RemovedSoFar(asg, asg', name, msgs, asg.Keys)
  }

  lemma HolderStripped(asg: Assignments, asg': Assignments, name: string, msgs: seq<RoleAssignmentMsg>,
                       done: set<PeerId>, peer: PeerId, ts: int)
    requires RemovedSoFar(asg, asg', name, msgs, done)
    requires peer in asg && peer !in done && name in asg[peer].roleNames
    ensures var names := Without(asg[peer].roleNames, name);
      RemovedSoFar(asg, if names == [] then asg' - {peer} else asg'[peer := Assignment(names, ts)], name,
                   msgs + [RoleAssignmentMsg(peer, names, ts)], done + {peer})
  {
    var names := Without(asg[peer].roleNames, name);
    var m := RoleAssignmentMsg(peer, names, ts);
    HolderReported(asg, name, msgs, done, m);
    var after := if names == [] then asg' - {peer} else asg'[peer := Assignment(names, ts)];
    OthersStayStripped(asg, asg', after, name, msgs, peer);
    OthersStayUntouched(asg, asg', after, name, done, peer);
    assert IsStripped(asg, after, name, m);
    assert after.Keys <= asg.Keys;
  }

  lemma OthersStayUntouched(asg: Assignments, asg': Assignments, after: Assignments, name: string, done: set<PeerId>, peer: PeerId)
    requires peer in asg && name in asg[peer].roleNames && OthersUntouched(asg, asg', name, done)
    requires forall p :: p != peer ==> (p in after <==> p in asg') && (p in asg' ==> after[p] == asg'[p])
    ensures OthersUntouched(asg, after, name, done + {peer})
  {
  }

  lemma HolderReported(asg: Assignments, name: string, msgs: seq<RoleAssignmentMsg>, done: set<PeerId>, m: RoleAssignmentMsg)
    requires done <= asg.Keys && ReportsHolders(asg, name, msgs, done) && m.peer in asg && m.peer !in done
    ensures ReportsHolders(asg, name, msgs + [m], done + {m.peer})
  {
    forall p | p in done + {m.peer} && name in asg[p].roleNames ensures Reports(msgs + [m], p) {
      ReportsMore(msgs, m, p);
    }
  }

  lemma ReportsMore(msgs: seq<RoleAssignmentMsg>, m: RoleAssignmentMsg, p: PeerId)
    requires p == m.peer || Reports(msgs, p)
    ensures Reports(msgs + [m], p)
  {
    if p == m.peer {
      assert (msgs + [m])[|msgs|].peer == p;
    } else {
      var i :| 0 <= i < |msgs| && msgs[i].peer == p;
      assert (msgs + [m])[i].peer == p;
    }
  }

  lemma OthersStayStripped(asg: Assignments, asg': Assignments, after: Assignments, name: string,
                           msgs: seq<RoleAssignmentMsg>, peer: PeerId)
    requires forall i :: 0 <= i < |msgs| ==> IsStripped(asg, asg', name, msgs[i]) && msgs[i].peer != peer
    requires forall p :: p != peer ==> (p in after <==> p in asg') && (p in asg' ==> after[p] == asg'[p])
    ensures forall i :: 0 <= i < |msgs| ==> IsStripped(asg, after, name, msgs[i])
  {
  }

  lemma RemovalKeepsIntegrity(defs: Definitions, asg: Assignments, asg': Assignments, name: string, msgs: seq<RoleAssignmentMsg>)
    requires IsRemoval(asg, asg', name, msgs)
    ensures Integrity(defs, asg) ==> Integrity(defs - {name}, asg')
  {
    if Integrity(defs, asg) {
      forall p | p in asg' ensures asg'[p].roleNames != [] && forall n :: n in asg'[p].roleNames ==> n in defs - {name} {
        assert p in asg;
        WithoutKeepsOthers(asg[p].roleNames, name);
        if name in asg[p].roleNames {
          var i :| 0 <= i < |msgs| && msgs[i].peer == p;
          assert IsStripped(asg, asg', name, msgs[i]);
        }
      }
    }
  }

  lemma {:induction false} UndefinedNameIsFinal(defs: Definitions, names: seq<string>, i: nat)
    requires i < |names| && Normalize(names[i]) !in defs
    ensures NormalizeAll(defs, names).None?
    decreases |names|
  {
    if i < |names| - 1 {
      UndefinedNameIsFinal(defs, names[..|names| - 1], i);
    }
  }

  lemma {:induction false} NormalizedNamesAreDefined(defs: Definitions, names: seq<string>)
    ensures NormalizeAll(defs, names).Some? ==> forall n :: n in NormalizeAll(defs, names).value ==> n in defs && n != ""
  {
    if names != [] {
      NormalizedNamesAreDefined(defs, names[..|names| - 1]);
    }
  }

  lemma {:induction false} WithoutKeepsOthers(names: seq<string>, name: string)
    ensures forall n :: n in Without(names, name) <==> n in names && n != name
    ensures name !in names ==> Without(names, name) == names
  {
    if names != [] {
      WithoutKeepsOthers(names[..|names| - 1], name);
      assert names == names[..|names| - 1] + [names[|names| - 1]];
    }
  }
}
