/** The client's copy of the role state, and its agreement with the daemon's. */
module RoleStores {
  import opened Wrappers
  import opened RoleManagers

  /** The client keeps whole messages, with the names as they were sent. */
  type Store = map<PeerId, RoleAssignmentMsg>

  function Received(update: seq<Role>): seq<Option<Role>> {
    seq(|update|, i requires 0 <= i < |update| => Some(update[i]))
  }

  function LowerAll(names: seq<string>): seq<string> {
    seq(|names|, i requires 0 <= i < |names| => Lower(names[i]))
  }

  /** The client's gate: the same stamp comparison, no check of the names. */
  function StoreOne(store: Store, m: RoleAssignmentMsg): Store {
    if m.peer !in store || m.hlcTs > store[m.peer].hlcTs then
      if |m.roleNames| > 0 then store[m.peer := m] else store - {m.peer}
    else store
  }

  function StoreMask(defs: Definitions, store: Store, peer: PeerId): Permission {
    if peer in store then MaskOfNames(defs, LowerAll(store[peer].roleNames)) else 0
  }

  class RoleStore {
    var roleDefinitions: Definitions
    var peerAssignments: Store

    constructor ()
      ensures roleDefinitions == map[] && peerAssignments == map[]
    {
      roleDefinitions, peerAssignments := map[], map[];
    }

    method ProcessRoleDefinitionsUpdate(update: seq<Role>)
      modifies this`roleDefinitions
      ensures roleDefinitions == DefinitionsFrom(Received(update))
    {
      roleDefinitions := map[];
      ghost var entries := Received(update);
      for i := 0 to |update|
        invariant roleDefinitions == DefinitionsFrom(entries[..i])
      {
        assert entries[..i + 1][..i] == entries[..i];
        if update[i].name == "" {
          continue;
        }
        roleDefinitions := roleDefinitions[Lower(update[i].name) := update[i]];
      }
      assert entries[..|update|] == entries;
    }

    method ProcessPeerRoleAssignment(msg: RoleAssignmentMsg)
      modifies this`peerAssignments
      ensures peerAssignments == StoreOne(old(peerAssignments), msg)
    {
      if msg.peer !in peerAssignments || msg.hlcTs > peerAssignments[msg.peer].hlcTs {
        if |msg.roleNames| > 0 {
          peerAssignments := peerAssignments[msg.peer := msg];
        } else if msg.peer in peerAssignments {
          peerAssignments := peerAssignments - {msg.peer};
        }
      }
    }

    method GetPermissionsForPeer(peer: PeerId) returns (p: Permission)
      ensures p == StoreMask(roleDefinitions, peerAssignments, peer)
    {
      if peer !in peerAssignments {
        return 0;
      }
      p := 0;
      var names := peerAssignments[peer].roleNames;
      ghost var keys := LowerAll(names);
      for i := 0 to |names|
        invariant p == MaskOfNames(roleDefinitions, keys[..i])
      {
        var key := Lower(names[i]);
        OneMoreMask(roleDefinitions, keys[..i], keys[i]);
        assert keys[..i + 1] == keys[..i] + [keys[i]];
        if key in roleDefinitions {
          p := p | roleDefinitions[key].permissions;
        }
      }
      assert keys[..|names|] == keys;
    }
  }
}

module RoleMirror {
  import opened Wrappers
  import opened Text
  import opened HybridClocks
  import opened RoleManagers
  import opened RoleStores
  import RoleConvergence

  /**
   What the daemon receives by gossip and forwards to its client: definitions; an assignment, if it
   is applied; an entry of a snapshot, applied or not; and, whatever the daemon makes of it, the
   news that a peer has left or, about a peer other than itself, that it was kicked or banned.
   */
  datatype Gossip =
    | GotDefinitions(update: seq<Role>)
    | GotAssignment(msg: RoleAssignmentMsg)
    | GotEntry(msg: RoleAssignmentMsg)
    | GotPeerLeft(peer: PeerId, hlcTs: int)
    | GotExpelled(peer: PeerId)

  /** The daemon's role state beside its client's. */
  datatype Pair = Pair(defs: Definitions, asg: Assignments, clientDefs: Definitions, store: Store)

  function GossipStep(s: Pair, g: Gossip): Pair {
    match g
    case GotDefinitions(update) =>
      var defs := DefinitionsFrom(Received(update));
      s.(defs := defs, clientDefs := defs)
    case GotAssignment(m) =>
      s.(asg := ApplyOne(s.defs, s.asg, m),
         store := if Accepts(s.defs, s.asg, m) then StoreOne(s.store, m) else s.store)
    case GotEntry(m) => s.(asg := ApplyOne(s.defs, s.asg, m), store := StoreOne(s.store, m))
    case GotPeerLeft(p, ts) => s.(asg := ApplyOne(s.defs, s.asg, RoleAssignmentMsg(p, [], ts)), store := s.store - {p})
    case GotExpelled(p) => s.(store := s.store - {p})
  }

  function GossipRun(s: Pair, run: seq<Gossip>): Pair {
    if run == [] then s else GossipStep(GossipRun(s, run[..|run| - 1]), run[|run| - 1])
  }

  ghost predicate EntriesMatch(asg: Assignments, store: Store, p: PeerId) {
    && (p in asg <==> p in store)
    && (p in asg ==> asg[p].hlcTs == store[p].hlcTs && asg[p].roleNames == LowerAll(store[p].roleNames))
  }

  ghost predicate Mirrors(s: Pair) {
    && s.defs == s.clientDefs && "" !in s.defs
    && forall p :: EntriesMatch(s.asg, s.store, p)
  }

  ghost predicate HasBlanks(m: RoleAssignmentMsg) {
    exists i :: 0 <= i < |m.roleNames| && Trim(m.roleNames[i]) != m.roleNames[i]
  }

  predicate IsNewer(asg: Assignments, p: PeerId, ts: int) {
    p in asg ==> asg[p].hlcTs < ts
  }

  /**
   Messages that daemon and client take alike: an assignment that is applied has no blanks around
   its names; an entry that is newer also names only defined roles; a peer leaves later than it was
   assigned; an expelled peer has no roles any more.
   */
  ghost predicate IsTakenAlike(s: Pair, g: Gossip) {
    match g
    case GotDefinitions(_) => true
    case GotAssignment(m) => Accepts(s.defs, s.asg, m) ==> !HasBlanks(m)
    case GotEntry(m) => IsNewer(s.asg, m.peer, m.hlcTs) ==> Accepts(s.defs, s.asg, m) && !HasBlanks(m)
    case GotPeerLeft(p, ts) => IsNewer(s.asg, p, ts)
    case GotExpelled(p) => p !in s.asg
  }

  // ----- names -----

  lemma TrimRightOnlyDrops(s: string)
    ensures |TrimRight(s)| <= |s| && (|TrimRight(s)| == |s| ==> TrimRight(s) == s)
  {
    TrimRightIsPrefix(s);
  }

  lemma {:induction false} TrimLeftOnlyDrops(s: string)
    ensures |TrimLeft(s)| <= |s| && (|TrimLeft(s)| == |s| ==> TrimLeft(s) == s)
  {
    if s != "" && IsSpace(s[0]) {
      TrimLeftOnlyDrops(s[1..]);
    }
  }

  /** Lowering commutes with trimming exactly when there is nothing to trim. */
  lemma BlanksShow(name: string)
    ensures Lower(name) == Normalize(name) <==> Trim(name) == name
  {
    TrimLeftOnlyDrops(name);
    TrimRightOnlyDrops(TrimLeft(name));
    if Lower(name) == Normalize(name) {
      assert |Lower(name)| == |name| && |Normalize(name)| == |Trim(name)|;
    }
  }

  lemma NamesMatchExactlyWhenUnblanked(defs: Definitions, m: RoleAssignmentMsg)
    requires "" !in defs && NormalizeAll(defs, m.roleNames).Some?
    ensures NormalizeAll(defs, m.roleNames).value == LowerAll(m.roleNames) <==> !HasBlanks(m)
    ensures NormalizeAll(defs, m.roleNames).value == [] <==> m.roleNames == []
  {
    RoleConvergence.NamesAreKeptInOrder(defs, m.roleNames);
    var norm := NormalizeAll(defs, m.roleNames).value;
    forall i | 0 <= i < |m.roleNames|
      ensures norm[i] == LowerAll(m.roleNames)[i] <==> Trim(m.roleNames[i]) == m.roleNames[i]
    {
      BlanksShow(m.roleNames[i]);
    }
  }

  // ----- agreement -----

  /** One forwarded message keeps the two in agreement exactly when they take it alike. */
  lemma StepKeepsMirrorExactlyWhen(s: Pair, g: Gossip)
    requires Mirrors(s)
    ensures Mirrors(GossipStep(s, g)) <==> IsTakenAlike(s, g)
  {
    match g
    case GotDefinitions(update) =>
      RoleConvergence.NoBlankDefinition(Received(update));
    case GotAssignment(m) =>
      assert EntriesMatch(s.asg, s.store, m.peer);
      if Accepts(s.defs, s.asg, m) {
        AppliedEntryMatches(s, m);
        OthersMatch(s, GossipStep(s, g), m.peer);
      } else {
        assert GossipStep(s, g) == s;
      }
    case GotEntry(m) => EntryKeepsMirrorExactlyWhen(s, m);
    case GotPeerLeft(p, ts) =>
      assert EntriesMatch(s.asg, s.store, p);
      assert NormalizeAll(s.defs, []) == Some([]);
      OthersMatch(s, GossipStep(s, g), p);
    case GotExpelled(p) =>
      assert EntriesMatch(s.asg, s.store, p);
      OthersMatch(s, GossipStep(s, g), p);
  }

  /** Where only the entries of one peer changed, agreement is agreement about that peer. */
  lemma OthersMatch(s: Pair, s': Pair, p: PeerId)
    requires Mirrors(s) && s'.defs == s.defs && s'.clientDefs == s.clientDefs
    requires s'.asg - {p} == s.asg - {p} && s'.store - {p} == s.store - {p}
    ensures Mirrors(s') <==> EntriesMatch(s'.asg, s'.store, p)
  {
    forall q | q != p ensures EntriesMatch(s'.asg, s'.store, q) {
      assert EntriesMatch(s.asg, s.store, q);
      assert q in s'.asg <==> q in s'.asg - {p};
      assert q in s'.store <==> q in s'.store - {p};
      assert q in s.asg <==> q in s.asg - {p};
      assert q in s.store <==> q in s.store - {p};
      assert q in s.asg ==> s'.asg[q] == (s'.asg - {p})[q] == s.asg[q];
      assert q in s.store ==> s'.store[q] == (s'.store - {p})[q] == s.store[q];
    }
  }

  lemma AppliedEntryMatches(s: Pair, m: RoleAssignmentMsg)
    requires Mirrors(s) && Accepts(s.defs, s.asg, m)
    ensures EntriesMatch(ApplyOne(s.defs, s.asg, m), StoreOne(s.store, m), m.peer) <==> !HasBlanks(m)
  {
    assert EntriesMatch(s.asg, s.store, m.peer);
    NamesMatchExactlyWhenUnblanked(s.defs, m);
  }

  lemma EntryKeepsMirrorExactlyWhen(s: Pair, m: RoleAssignmentMsg)
    requires Mirrors(s)
    ensures Mirrors(GossipStep(s, GotEntry(m))) <==> IsTakenAlike(s, GotEntry(m))
  {
    assert EntriesMatch(s.asg, s.store, m.peer);
    var s' := GossipStep(s, GotEntry(m));
    if !IsNewer(s.asg, m.peer, m.hlcTs) {
      assert s' == s;
    } else {
      OthersMatch(s, s', m.peer);
      if Accepts(s.defs, s.asg, m) {
        AppliedEntryMatches(s, m);
      } else {
        assert m.roleNames != [];
      }
    }
  }

  ghost predicate AllTakenAlike(s: Pair, run: seq<Gossip>) {
    forall i :: 0 <= i < |run| ==> IsTakenAlike(GossipRun(s, run[..i]), run[i])
  }

  ghost predicate AlwaysMirrors(s: Pair, run: seq<Gossip>) {
    forall i :: 0 <= i <= |run| ==> Mirrors(GossipRun(s, run[..i]))
  }

  lemma OneMoreGossip(s: Pair, run: seq<Gossip>, i: nat)
    requires i < |run|
    ensures GossipRun(s, run[..i + 1]) == GossipStep(GossipRun(s, run[..i]), run[i])
  {
    assert run[..i + 1][..i] == run[..i];
  }

  lemma {:induction false} MirrorsUpTo(s: Pair, run: seq<Gossip>, n: nat)
    requires Mirrors(s) && AllTakenAlike(s, run) && n <= |run|
    ensures Mirrors(GossipRun(s, run[..n]))
  {
    if n != 0 {
      MirrorsUpTo(s, run, n - 1);
      OneMoreGossip(s, run, n - 1);
      StepKeepsMirrorExactlyWhen(GossipRun(s, run[..n - 1]), run[n - 1]);
    }
  }

  /** Client and daemon agree all through a run of forwarded gossip exactly when they take each message alike. */
  lemma MirrorsExactlyWhenAllTakenAlike(s: Pair, run: seq<Gossip>)
    requires Mirrors(s)
    ensures AlwaysMirrors(s, run) <==> AllTakenAlike(s, run)
  {
    if AllTakenAlike(s, run) {
      forall i | 0 <= i <= |run| ensures Mirrors(GossipRun(s, run[..i])) {
        MirrorsUpTo(s, run, i);
      }
    }
    if AlwaysMirrors(s, run) {
      forall i | 0 <= i < |run| ensures IsTakenAlike(GossipRun(s, run[..i]), run[i]) {
        assert Mirrors(GossipRun(s, run[..i]));
        assert Mirrors(GossipRun(s, run[..i + 1]));
        OneMoreGossip(s, run, i);
        StepKeepsMirrorExactlyWhen(GossipRun(s, run[..i]), run[i]);
      }
    }
  }

  /** Agreement means the same stamp and the same permission mask for every peer. */
  lemma MirrorsComputeTheSameMask(s: Pair, run: seq<Gossip>, p: PeerId)
    requires Mirrors(s) && AllTakenAlike(s, run)
    ensures var t := GossipRun(s, run);
      && MaskOf(t.defs, t.asg, p) == StoreMask(t.clientDefs, t.store, p)
      && (p in t.asg <==> p in t.store)
      && (p in t.asg ==> t.asg[p].hlcTs == t.store[p].hlcTs)
  {
    MirrorsUpTo(s, run, |run|);
    assert run[..|run|] == run;
    var t := GossipRun(s, run);
    assert EntriesMatch(t.asg, t.store, p);
  }

  /** A late notice that a peer has left, or any that it was expelled, leaves it its mask here and none at the client. */
  lemma NoticesSplitMasks(s: Pair, p: PeerId, ts: int)
    requires Mirrors(s) && p in s.asg && ts <= s.asg[p].hlcTs
    ensures forall g :: g == GotPeerLeft(p, ts) || g == GotExpelled(p) ==>
      var t := GossipStep(s, g);
      MaskOf(t.defs, t.asg, p) == MaskOf(s.defs, s.asg, p) && StoreMask(t.clientDefs, t.store, p) == 0
  {
    assert NormalizeAll(s.defs, []) == Some([]);
  }

  // ----- announced definitions -----

  /** Every role is stored under the lowered name it shows. */
  ghost predicate KeyedByName(defs: Definitions) {
    forall k :: k in defs ==> defs[k].name != "" && Lower(defs[k].name) == k
  }

  lemma {:induction false} AnnouncedArrive(update: seq<Role>, keys: seq<string>, defs: Definitions, done: set<string>)
    requires KeyedByName(defs) && ListsKeys(update, keys, defs, done)
    ensures DefinitionsFrom(Received(update)) == map k | k in defs && k in done :: defs[k]
  {
    if update == [] {
      assert forall k :: k !in done;
    } else {
      var n := |update| - 1;
      assert keys == keys[..n] + [keys[n]];
      AnnouncedArrive(update[..n], keys[..n], defs, done - {keys[n]});
      assert Received(update)[..n] == Received(update[..n]);
    }
  }

  /** The announcement of all definitions reproduces them exactly when each is keyed by its own name. */
  lemma AnnouncementArrivesExactlyWhenKeyedByName(update: seq<Role>, defs: Definitions)
    requires Announces(update, defs)
    ensures DefinitionsFrom(Received(update)) == defs <==> KeyedByName(defs)
  {
    if KeyedByName(defs) {
      var keys :| ListsKeys(update, keys, defs, defs.Keys);
      AnnouncedArrive(update, keys, defs, defs.Keys);
      assert (map k | k in defs && k in defs.Keys :: defs[k]) == defs;
    }
    ReceivedAreKeyedByName(update);
  }

  lemma ReceivedAreKeyedByName(update: seq<Role>)
    ensures KeyedByName(DefinitionsFrom(Received(update)))
  {
    var defs := DefinitionsFrom(Received(update));
    forall k | k in defs ensures defs[k].name != "" && Lower(defs[k].name) == k {
      RoleConvergence.DefinedNames(Received(update), k);
    }
  }

  /**
   The daemon files a new role under its trimmed, lowered name, the receivers of the announcement
   under the lowered one: after an update both have the same definitions exactly unless the name
   of the role has blanks around it.
   */
  lemma UpdatedDefinitionArrivesExactlyUnlessBlanks(defs: Definitions, name: string, permissions: Permission, update: seq<Role>)
    requires KeyedByName(defs) && Normalize(name) != ""
    requires Announces(update, defs[Normalize(name) := Role(name, permissions)])
    ensures DefinitionsFrom(Received(update)) == defs[Normalize(name) := Role(name, permissions)] <==> Trim(name) == name
  {
    var defs' := defs[Normalize(name) := Role(name, permissions)];
    AnnouncementArrivesExactlyWhenKeyedByName(update, defs');
    BlanksShow(name);
    assert defs'[Normalize(name)].name == name;
    if Trim(name) == name {
      forall k | k in defs' ensures defs'[k].name != "" && Lower(defs'[k].name) == k {
      }
    }
  }

  // ----- a local change uses two stamps -----

  /**
   A role change made at this daemon is stored with one reading of the clock (`ts`) and announced,
   also to its own client, with the next (`announced`).
   */
  function LocalChange(s: Pair, p: PeerId, names: seq<string>, ts: int, announced: int): Pair {
    if names == [] then s.(asg := s.asg - {p}, store := s.store - {p})
    else s.(asg := s.asg[p := Assignment(names, ts)], store := s.store[p := RoleAssignmentMsg(p, names, announced)])
  }

  /** Daemon and client give the peer the same roles, or none. */
  ghost predicate RolesMatch(s: Pair, p: PeerId) {
    && (p in s.asg <==> p in s.store)
    && (p in s.asg ==> s.asg[p].roleNames == LowerAll(s.store[p].roleNames))
  }

  lemma AnnouncedStampIsLater(c: Stamp, now: int, later: int)
    requires Fits(c) && Fits(Tick(c, now)) && Fits(Tick(Tick(c, now), later))
    ensures Pack(Tick(c, now)) < Pack(Tick(Tick(c, now), later))
  {
    TickAdvances(Tick(c, now), later);
    PackPreservesOrder(Tick(c, now), Tick(Tick(c, now), later));
  }

  /**
   After a local change that gives a peer roles, gossip that changes or removes them leaves client
   and daemon with the same roles exactly unless its stamp falls into the gap between the two
   stamps; after a removal there is no stamp to compare with, and no gap.
   */
  lemma LocalChangeLeavesGap(s: Pair, p: PeerId, names: seq<string>, ts: int, announced: int, m: RoleAssignmentMsg)
    requires s.defs == s.clientDefs && "" !in s.defs && ts < announced
    requires m.peer == p && NormalizeAll(s.defs, m.roleNames).Some? && !HasBlanks(m)
    requires NormalizeAll(s.defs, m.roleNames).value != names && LowerAll(names) == names
    ensures RolesMatch(GossipStep(LocalChange(s, p, names, ts, announced), GotAssignment(m)), p)
       <==> !(names != [] && ts < m.hlcTs <= announced)
  {
    NamesMatchExactlyWhenUnblanked(s.defs, m);
  }
}
