/** What removing a role does to permissions, and when gossiped assignments converge. */
module RoleConvergence {
  import opened Wrappers
  import opened Text
  import opened RoleManagers

  // ----- masks -----

  lemma OrHas(a: Permission, b: Permission, p: Permission)
    ensures Has(a | b, p) <==> Has(a, p) || Has(b, p)
  {
    assert (a | b) & p == (a & p) | (b & p);
  }

  /** Some assigned, defined role carries (a bit of) the permission. */
  ghost predicate SomeRoleGrants(defs: Definitions, names: seq<string>, p: Permission) {
    exists n :: n in names && n in defs && Has(defs[n].permissions, p)
  }

  /** A mask grants a permission exactly when some role does. */
  lemma {:induction false} MaskGrantsWhatSomeRoleGrants(defs: Definitions, names: seq<string>, p: Permission)
    ensures Has(MaskOfNames(defs, names), p) <==> SomeRoleGrants(defs, names, p)
  {
    if names == [] {
      NothingHas(p);
    } else {
      var front, last := names[..|names| - 1], names[|names| - 1];
      MaskGrantsWhatSomeRoleGrants(defs, front, p);
      assert names == front + [last];
      OneMoreRole(defs, front, last, p);
      OneMoreMask(defs, front, last);
      MaskHas(defs, MaskOfNames(defs, names), MaskOfNames(defs, front), last, p);
    }
  }

  lemma NothingHas(p: Permission)
    ensures !Has(0, p)
  {
    assert 0 & p == 0;
  }

  lemma MaskHas(defs: Definitions, mask': Permission, mask: Permission, last: string, p: Permission)
    requires mask' == if last in defs then mask | defs[last].permissions else mask
    ensures Has(mask', p) <==> Has(mask, p) || (last in defs && Has(defs[last].permissions, p))
  {
    if last in defs {
      OrHas(mask, defs[last].permissions, p);
    }
  }

  lemma OneMoreRole(defs: Definitions, front: seq<string>, last: string, p: Permission)
    ensures SomeRoleGrants(defs, front + [last], p)
       <==> SomeRoleGrants(defs, front, p) || (last in defs && Has(defs[last].permissions, p))
  {
    assert forall n :: n in front + [last] <==> n in front || n == last;
  }

  lemma {:induction false} MaskWithoutDefinition(defs: Definitions, names: seq<string>, name: string)
    ensures MaskOfNames(defs - {name}, names) == MaskOfNames(defs, Without(names, name))
  {
    if names != [] {
      var front, last := names[..|names| - 1], names[|names| - 1];
      MaskWithoutDefinition(defs, front, name);
      assert names == front + [last];
      SameMaskStep(defs, front, Without(front, name), last, name);
      OneMoreWithout(front, last, name);
    }
  }

  lemma SameMaskStep(defs: Definitions, front: seq<string>, rest: seq<string>, last: string, name: string)
    requires MaskOfNames(defs - {name}, front) == MaskOfNames(defs, rest)
    ensures MaskOfNames(defs - {name}, front + [last]) == MaskOfNames(defs, if last != name then rest + [last] else rest)
  {
    OneMoreMask(defs - {name}, front, last);
    OneMoreMask(defs, rest, last);
  }

  lemma OneMoreWithout(front: seq<string>, last: string, name: string)
    ensures Without(front + [last], name) == if last != name then Without(front, name) + [last] else Without(front, name)
  {
    assert (front + [last])[..|front|] == front;
  }

  /**
   After a role is removed, each reported peer's mask is the union of its remaining roles under
   the old definitions, and every other peer's mask is what it was.
   */
  lemma RemovalMasks(defs: Definitions, asg: Assignments, asg': Assignments, name: string,
                     msgs: seq<RoleAssignmentMsg>, p: PeerId)
    requires IsRemoval(asg, asg', name, msgs)
    ensures Reports(msgs, p) <==> p in asg && name in asg[p].roleNames
    ensures Reports(msgs, p) ==> MaskOf(defs - {name}, asg', p) == MaskOfNames(defs, Without(asg[p].roleNames, name))
    ensures !Reports(msgs, p) ==> MaskOf(defs - {name}, asg', p) == MaskOf(defs, asg, p)
  {
    if p in asg {
      var names := asg[p].roleNames;
      WithoutKeepsOthers(names, name);
      MaskWithoutDefinition(defs, names, name);
      MaskWithoutDefinition(defs, Without(names, name), name);
      WithoutKeepsOthers(Without(names, name), name);
      if Reports(msgs, p) {
        var i :| 0 <= i < |msgs| && msgs[i].peer == p;
        assert IsStripped(asg, asg', name, msgs[i]);
      }
    } else {
      assert forall i :: 0 <= i < |msgs| ==> IsStripped(asg, asg', name, msgs[i]);
    }
  }

  // ----- names -----

  /** Lowering replaces exactly the capital letters, by the small letter 32 further on. */
  lemma LowerLeavesNoCapitals(s: string, i: nat)
    requires i < |s|
    ensures |Lower(s)| == |s| && !('A' <= Lower(s)[i] <= 'Z')
    ensures if 'A' <= s[i] <= 'Z' then Lower(s)[i] as int == s[i] as int + 32 else Lower(s)[i] == s[i]
  {
  }

  /** Names are matched whatever their capitals and surrounding blanks. */
  lemma NamesMatchLoosely(before: string, s: string, t: string, after: string)
    requires AllBlank(before) && AllBlank(after) && s != "" && !IsSpace(s[0]) && !IsSpace(s[|s| - 1])
    requires Lower(s) == Lower(t) && Trim(t) == t
    ensures Normalize(before + s + after) == Normalize(t)
  {
    TrimDropsBlanks(before, s, after);
  }

  /** Each default role is found under its own name. */
  lemma DefaultRolesAreNamed()
    ensures Normalize("Admin") == "admin" && Normalize("Moderator") == "moderator"
    ensures Normalize("Streamer") == "streamer" && Normalize("Viewer") == "viewer"
    ensures forall k :: k in DEFAULT_DEFINITIONS ==> Normalize(DEFAULT_DEFINITIONS[k].name) == k
  {
    TrimLineBreak("Admin");
    TrimLineBreak("Moderator");
    TrimLineBreak("Streamer");
    TrimLineBreak("Viewer");
    assert Lower("Admin") == "admin";
    assert Lower("Moderator") == "moderator";
    assert Lower("Streamer") == "streamer";
    assert Lower("Viewer") == "viewer";
  }

  /** The permissions that are checked, by their place among the 13; together they are all there are. */
  lemma PermissionsAreNumbered()
    ensures PERM_VIEW == 1 << 0 && PERM_CHAT == 1 << 1 && PERM_KICK_USER == 1 << 2 && PERM_BAN_USER == 1 << 3
    ensures PERM_STREAM == 1 << 8 && PERM_QUEUE == 1 << 12 && PERM_ALL == (1 << 13) - 1
  {
  }

  /** What the default roles may do: bit by bit, with the 13 permissions numbered from 0. */
  lemma DefaultRolesMay()
    ensures var may := (name: string, bits: bv32) => name in DEFAULT_DEFINITIONS && DEFAULT_DEFINITIONS[name].permissions == bits;
      && may("admin", 0x1fff) && may("moderator", 0x00fc) && may("streamer", 0x1f00) && may("viewer", 0x0003)
    ensures forall p: Permission :: p == PERM_KICK_USER || p == PERM_BAN_USER ==>
      Has(DEFAULT_DEFINITIONS["moderator"].permissions, p) && !Has(DEFAULT_DEFINITIONS["streamer"].permissions, p)
      && !Has(DEFAULT_DEFINITIONS["viewer"].permissions, p)
    ensures forall p: Permission :: p == PERM_STREAM || p == PERM_QUEUE ==>
      Has(DEFAULT_DEFINITIONS["streamer"].permissions, p) && !Has(DEFAULT_DEFINITIONS["moderator"].permissions, p)
      && !Has(DEFAULT_DEFINITIONS["viewer"].permissions, p)
  {
  }

  // ----- giving roles -----

  /** Names are accepted exactly if each is defined, and then kept one by one, in order. */
  lemma {:induction false} NamesAreKeptInOrder(defs: Definitions, names: seq<string>)
    requires "" !in defs
    ensures NormalizeAll(defs, names).Some? <==> forall i :: 0 <= i < |names| ==> Normalize(names[i]) in defs
    ensures NormalizeAll(defs, names).Some? ==>
      var n := NormalizeAll(defs, names).value; |n| == |names| && forall i :: 0 <= i < |names| ==> n[i] == Normalize(names[i])
  {
    if names != [] {
      var front := names[..|names| - 1];
      NamesAreKeptInOrder(defs, front);
      assert forall i :: 0 <= i < |front| ==> front[i] == names[i];
    }
  }

  /**
   A peer that was given roles may do exactly what some of them allows; nobody else's entry changes,
   and nothing does if a name is undefined.
   */
  lemma GivenRolesGrant(defs: Definitions, asg: Assignments, target: PeerId, names: seq<string>, ts: int, p: Permission)
    ensures var asg' := SetRoles(defs, asg, target, names, ts); var norm := NormalizeAll(defs, names);
      && (norm.None? ==> asg' == asg)
      && (norm.Some? ==> (Has(MaskOf(defs, asg', target), p) <==> SomeRoleGrants(defs, norm.value, p)))
      && forall q :: q != target ==> (q in asg' <==> q in asg) && (q in asg ==> asg'[q] == asg[q])
  {
    if NormalizeAll(defs, names).Some? {
      GivenRolesMask(defs, asg, target, names, ts);
      MaskGrantsWhatSomeRoleGrants(defs, NormalizeAll(defs, names).value, p);
    }
  }

  /** Its mask is that of the roles given. */
  lemma GivenRolesMask(defs: Definitions, asg: Assignments, target: PeerId, names: seq<string>, ts: int)
    requires NormalizeAll(defs, names).Some?
    ensures MaskOf(defs, SetRoles(defs, asg, target, names, ts), target) == MaskOfNames(defs, NormalizeAll(defs, names).value)
  {
  }

  /** The entry stored is stamped only if the names differ, and giving them again changes nothing. */
  lemma GivenRolesAreStoredOnce(defs: Definitions, asg: Assignments, target: PeerId, names: seq<string>, ts: int, later: int)
    requires NormalizeAll(defs, names).Some? && NormalizeAll(defs, names).value != []
    ensures var n := NormalizeAll(defs, names).value; var asg' := SetRoles(defs, asg, target, names, ts);
      && target in asg' && asg'[target].roleNames == n
      && (if target in asg && asg[target].roleNames == n then asg'[target] == asg[target] else asg'[target].hlcTs == ts)
      && SetRoles(defs, asg', target, names, later) == asg' && !ChangesRoles(defs, asg', target, names)
  {
  }

  // ----- filters keep order -----

  /** Filtering names, entries of a snapshot or definitions goes message by message, in order. */
  lemma {:induction false} WithoutConcat(g: seq<string>, h: seq<string>, name: string)
    ensures Without(g + h, name) == Without(g, name) + Without(h, name)
    ensures forall n :: Without([n], name) == if n == name then [] else [n]
  {
    assert forall n: string :: [n][..0] == [];
    if h == [] {
      assert g + h == g;
    } else {
      assert (g + h)[..|g + h| - 1] == g + h[..|h| - 1];
      WithoutConcat(g, h[..|h| - 1], name);
    }
  }

  lemma {:induction false} UsableConcat(g: seq<SnapshotEntry>, h: seq<SnapshotEntry>)
    ensures Usable(g + h) == Usable(g) + Usable(h)
    ensures forall m :: Usable([Entry(m)]) == [m]
    ensures Usable([NilEntry]) == [] == Usable([BadPeer])
  {
    assert forall e: SnapshotEntry :: [e][..0] == [];
    if h == [] {
      assert g + h == g;
    } else {
      assert (g + h)[..|g + h| - 1] == g + h[..|h| - 1];
      UsableConcat(g, h[..|h| - 1]);
    }
  }

  /** Of two entries for one name the later one holds. */
  lemma {:induction false} LaterDefinitionsHold(g: seq<Option<Role>>, h: seq<Option<Role>>)
    ensures DefinitionsFrom(g + h) == DefinitionsFrom(g) + DefinitionsFrom(h)
    ensures forall r: Role :: DefinitionsFrom([Some(r)]) == if r.name == "" then map[] else map[Lower(r.name) := r]
    ensures DefinitionsFrom([None]) == map[]
  {
    assert forall r: Option<Role> :: [r][..0] == [];
    if h == [] {
      assert g + h == g;
    } else {
      assert (g + h)[..|g + h| - 1] == g + h[..|h| - 1];
      LaterDefinitionsHold(g, h[..|h| - 1]);
    }
  }

  // ----- received definitions -----

  /** Some entry of the message has a name and defines `n`. */
  ghost predicate Defines(update: seq<Option<Role>>, n: string) {
    exists i :: 0 <= i < |update| && update[i].Some? && update[i].value.name != "" && Lower(update[i].value.name) == n
  }

  /** The defined names are those of the named entries, each with a role of that name. */
  lemma {:induction false} DefinedNames(update: seq<Option<Role>>, n: string)
    ensures n in DefinitionsFrom(update) <==> Defines(update, n)
    ensures n in DefinitionsFrom(update) ==> n != "" && Lower(DefinitionsFrom(update)[n].name) == n
  {
    if update != [] {
      var front, last := update[..|update| - 1], update[|update| - 1];
      DefinedNames(front, n);
      assert Defines(front, n) ==> Defines(update, n);
      if last.Some? && last.value.name != "" {
        assert |Lower(last.value.name)| == |last.value.name|;
      }
    }
  }

  lemma NoBlankDefinition(update: seq<Option<Role>>)
    ensures "" !in DefinitionsFrom(update)
  {
    DefinedNames(update, "");
  }

  /**
   Received definitions replace the old ones without touching assignments, so they keep integrity
   exactly when every assigned name is the lowered name of an entry of the message.
   */
  lemma ReceivedDefinitionsKeepIntegrityExactlyWhen(defs: Definitions, asg: Assignments, update: seq<Option<Role>>)
    requires Integrity(defs, asg)
    ensures Integrity(DefinitionsFrom(update), asg)
       <==> forall p, n :: p in asg && n in asg[p].roleNames ==> Defines(update, n)
  {
    NoBlankDefinition(update);
    forall n: string ensures n in DefinitionsFrom(update) <==> Defines(update, n) {
      DefinedNames(update, n);
    }
  }

  /** A message that forgets a role in use: the peer keeps the name, and loses its permissions. */
  lemma ReceivedDefinitionsCanBreakIntegrity(p: PeerId, ts: int)
    ensures var asg: Assignments := map[p := Assignment(["viewer"], ts)]; var update := [Some(Role("Admin", PERM_ALL))];
      && Integrity(DEFAULT_DEFINITIONS, asg) && !Integrity(DefinitionsFrom(update), asg)
      && MaskOf(DEFAULT_DEFINITIONS, asg, p) != 0 && MaskOf(DefinitionsFrom(update), asg, p) == 0
  {
    var asg: Assignments := map[p := Assignment(["viewer"], ts)];
    var update := [Some(Role("Admin", PERM_ALL))];
    assert asg[p].roleNames[0] == "viewer" && ["viewer"][..0] == [];
    assert MaskOfNames(DEFAULT_DEFINITIONS, ["viewer"]) == 0 | 3;
    assert |Lower("Admin")| == 5 && |"viewer"| == 6;
    assert !Defines(update, "viewer");
    DefinedNames(update, "viewer");
    assert MaskOfNames(DefinitionsFrom(update), ["viewer"]) == 0;
  }

  // ----- integrity over runs -----

  datatype RoleState = RoleState(defs: Definitions, asg: Assignments)

  datatype RoleOp =
    | SetPeer(target: PeerId, names: seq<string>, ts: int)
    | Define(name: string, permissions: Permission)
    | Undefine(name: string)
    | Apply(msg: RoleAssignmentMsg)
    | Receive(update: seq<Option<Role>>)

  /** What the role manager's operations ensure; a removal may visit the peers in any order. */
  ghost predicate RoleStep(s: RoleState, op: RoleOp, t: RoleState) {
    match op
    case SetPeer(target, names, ts) => t == s.(asg := SetRoles(s.defs, s.asg, target, names, ts))
    case Define(name, permissions) =>
      t == if Normalize(name) == "" then s else s.(defs := s.defs[Normalize(name) := Role(name, permissions)])
    case Undefine(name) =>
      if Normalize(name) !in s.defs then t == s
      else t.defs == s.defs - {Normalize(name)} && exists msgs :: IsRemoval(s.asg, t.asg, Normalize(name), msgs)
    case Apply(m) => t == s.(asg := ApplyOne(s.defs, s.asg, m))
    case Receive(update) => t == s.(defs := DefinitionsFrom(update))
  }

  /** Only received definitions can leave assigned names undefined, by not defining them. */
  ghost predicate Covers(s: RoleState, op: RoleOp) {
    op.Receive? ==> forall p, n :: p in s.asg && n in s.asg[p].roleNames ==> Defines(op.update, n)
  }

  lemma StepKeepsIntegrityExactlyWhen(s: RoleState, op: RoleOp, t: RoleState)
    requires Integrity(s.defs, s.asg) && RoleStep(s, op, t)
    ensures Integrity(t.defs, t.asg) <==> Covers(s, op)
  {
    match op
    case SetPeer(target, names, ts) => NormalizedNamesAreDefined(s.defs, names);
    case Define(name, permissions) =>
    case Undefine(name) =>
      if Normalize(name) in s.defs {
        var msgs :| IsRemoval(s.asg, t.asg, Normalize(name), msgs);
        RemovalKeepsIntegrity(s.defs, s.asg, t.asg, Normalize(name), msgs);
      }
    case Apply(m) => NormalizedNamesAreDefined(s.defs, m.roleNames);
    case Receive(update) => ReceivedDefinitionsKeepIntegrityExactlyWhen(s.defs, s.asg, update);
  }

  ghost predicate IsRoleRun(states: seq<RoleState>, ops: seq<RoleOp>) {
    && |states| == |ops| + 1 && states[0] == RoleState(DEFAULT_DEFINITIONS, map[])
    && forall i :: 0 <= i < |ops| ==> RoleStep(states[i], ops[i], states[i + 1])
  }

  ghost predicate IntegrityUpTo(states: seq<RoleState>, n: nat)
    requires n < |states|
  {
    forall i :: 0 <= i <= n ==> Integrity(states[i].defs, states[i].asg)
  }

  /**
   From the defaults, over every run of changes, removals and received assignments and definitions,
   every assigned name is defined and no list is empty, exactly when all received definitions cover
   the names assigned at the time; in particular if none are received.
   */
  lemma {:induction false} IntegrityHoldsExactlyWhileCovered(states: seq<RoleState>, ops: seq<RoleOp>, n: nat)
    requires IsRoleRun(states, ops) && n <= |ops|
    ensures IntegrityUpTo(states, n) <==> forall i :: 0 <= i < n ==> Covers(states[i], ops[i])
  {
    if n == 0 {
      assert Integrity(states[0].defs, states[0].asg);
    } else {
      IntegrityHoldsExactlyWhileCovered(states, ops, n - 1);
      assert IntegrityUpTo(states, n) <==> IntegrityUpTo(states, n - 1) && Integrity(states[n].defs, states[n].asg);
      if IntegrityUpTo(states, n - 1) {
        StepKeepsIntegrityExactlyWhen(states[n - 1], ops[n - 1], states[n]);
      }
    }
  }

  // ----- deliveries -----

  /** One gossip message: a single assignment, or a snapshot of many. */
  datatype Delivery = Single(msg: RoleAssignmentMsg) | Snapshot(entries: seq<SnapshotEntry>)

  function Messages(d: Delivery): seq<RoleAssignmentMsg> {
    match d
    case Single(m) => [m]
    case Snapshot(entries) => Usable(entries)
  }

  function Flatten(ds: seq<Delivery>): seq<RoleAssignmentMsg> {
    if ds == [] then [] else Flatten(ds[..|ds| - 1]) + Messages(ds[|ds| - 1])
  }

  function Deliver(defs: Definitions, asg: Assignments, ds: seq<Delivery>): Assignments {
    if ds == [] then asg
    else
      var before := Deliver(defs, asg, ds[..|ds| - 1]);
      match ds[|ds| - 1]
      case Single(m) => ApplyOne(defs, before, m)
      case Snapshot(entries) => ApplyAll(defs, before, Usable(entries))
  }

  lemma {:induction false} ApplyConcat(defs: Definitions, asg: Assignments, g: seq<RoleAssignmentMsg>, h: seq<RoleAssignmentMsg>)
    ensures ApplyAll(defs, asg, g + h) == ApplyAll(defs, ApplyAll(defs, asg, g), h)
  {
    if h == [] {
      assert g + h == g;
    } else {
      assert (g + h)[..|g + h| - 1] == g + h[..|h| - 1];
      ApplyConcat(defs, asg, g, h[..|h| - 1]);
    }
  }

  /** How messages are grouped into snapshots does not matter. */
  lemma {:induction false} GroupingDoesNotMatter(defs: Definitions, asg: Assignments, ds: seq<Delivery>)
    ensures Deliver(defs, asg, ds) == ApplyAll(defs, asg, Flatten(ds))
  {
    if ds != [] {
      var front, last := ds[..|ds| - 1], ds[|ds| - 1];
      GroupingDoesNotMatter(defs, asg, front);
      ApplyConcat(defs, asg, Flatten(front), Messages(last));
      if last.Single? {
        var before := Deliver(defs, asg, front);
        assert [last.msg][..0] == [];
        assert ApplyAll(defs, before, [last.msg]) == ApplyOne(defs, before, last.msg);
      }
    }
  }

  // ----- convergence -----

  function Names(defs: Definitions, m: RoleAssignmentMsg): seq<string>
    requires NormalizeAll(defs, m.roleNames).Some?
  {
    NormalizeAll(defs, m.roleNames).value
  }

  /** `m` is about peer `p` and names only defined roles; all others are rejected. */
  predicate IsFor(defs: Definitions, m: RoleAssignmentMsg, p: PeerId) {
    m.peer == p && NormalizeAll(defs, m.roleNames).Some?
  }

  /** `m` is newer than what was stored at the start and than no other message about its peer is newer. */
  ghost predicate IsTop(defs: Definitions, asg: Assignments, ms: seq<RoleAssignmentMsg>, m: RoleAssignmentMsg, p: PeerId) {
    && m in ms && IsFor(defs, m, p)
    && (p in asg ==> asg[p].hlcTs < m.hlcTs)
    && forall x :: x in ms && IsFor(defs, x, p) ==> x.hlcTs <= m.hlcTs
  }

  ghost predicate IsNonEmptyTop(defs: Definitions, asg: Assignments, ms: seq<RoleAssignmentMsg>, m: RoleAssignmentMsg, p: PeerId) {
    IsTop(defs, asg, ms, m, p) && Names(defs, m) != []
  }

  /** Newest assignments of one peer with equal stamps give it the same roles, unless they are empty. */
  ghost predicate TiesAgree(defs: Definitions, asg: Assignments, ms: seq<RoleAssignmentMsg>) {
    forall x, y, p :: IsNonEmptyTop(defs, asg, ms, x, p) && IsNonEmptyTop(defs, asg, ms, y, p) ==> Names(defs, x) == Names(defs, y)
  }

  /** If all newest assignments of a peer are empty, then all its assignments are. */
  ghost predicate NoDanglingRemoval(defs: Definitions, asg: Assignments, ms: seq<RoleAssignmentMsg>) {
    forall e, m, p :: IsTop(defs, asg, ms, e, p) && m in ms && IsFor(defs, m, p) && Names(defs, m) != []
      ==> exists t :: IsNonEmptyTop(defs, asg, ms, t, p)
  }

  ghost predicate SameMessages(g: seq<RoleAssignmentMsg>, h: seq<RoleAssignmentMsg>) {
    forall m :: m in g <==> m in h
  }

  /** Every delivery of the same messages, in any order and with any repeats, ends the same. */
  ghost predicate Converges(defs: Definitions, asg: Assignments, ms: seq<RoleAssignmentMsg>) {
    forall d :: SameMessages(d, ms) ==> ApplyAll(defs, asg, d) == ApplyAll(defs, asg, ms)
  }

  /** The effect of one message on the entry of peer `p`. */
  lemma EntryAfter(defs: Definitions, asg: Assignments, m: RoleAssignmentMsg, p: PeerId)
    ensures var a := ApplyOne(defs, asg, m);
      if IsFor(defs, m, p) && (p in asg ==> asg[p].hlcTs < m.hlcTs) then
        if Names(defs, m) == [] then p !in a else p in a && a[p] == Assignment(Names(defs, m), m.hlcTs)
      else
        (p in a <==> p in asg) && (p in asg ==> a[p] == asg[p])
  {
  }

  /** The newest message wins once it has been seen, if it is not empty. */
  lemma {:induction false} TopWins(defs: Definitions, asg: Assignments, ms: seq<RoleAssignmentMsg>,
                                   t: RoleAssignmentMsg, p: PeerId, d: seq<RoleAssignmentMsg>)
    requires TiesAgree(defs, asg, ms) && IsNonEmptyTop(defs, asg, ms, t, p)
    requires forall m :: m in d ==> m in ms
    ensures var a := ApplyAll(defs, asg, d);
      && (p in a ==> a[p].hlcTs < t.hlcTs || a[p] == Assignment(Names(defs, t), t.hlcTs))
      && (t in d ==> p in a && a[p] == Assignment(Names(defs, t), t.hlcTs))
  {
    if d != [] {
      var front, last := d[..|d| - 1], d[|d| - 1];
      assert d == front + [last];
      TopWins(defs, asg, ms, t, p, front);
      EntryAfter(defs, ApplyAll(defs, asg, front), last, p);
      assert last in ms && IsFor(defs, t, p);
      if IsFor(defs, last, p) && last.hlcTs == t.hlcTs {
        assert IsTop(defs, asg, ms, last, p);
      }
    }
  }

  /** If nothing is newer than what was stored, nothing changes. */
  lemma {:induction false} StaleChangesNothing(defs: Definitions, asg: Assignments, p: PeerId, d: seq<RoleAssignmentMsg>)
    requires forall m :: m in d && IsFor(defs, m, p) ==> p in asg && m.hlcTs <= asg[p].hlcTs
    ensures var a := ApplyAll(defs, asg, d); (p in a <==> p in asg) && (p in asg ==> a[p] == asg[p])
  {
    if d != [] {
      var front, last := d[..|d| - 1], d[|d| - 1];
      assert d == front + [last];
      StaleChangesNothing(defs, asg, p, front);
      EntryAfter(defs, ApplyAll(defs, asg, front), last, p);
    }
  }

  /** If all messages are empty, the entry stays until one newer than it is seen, then is gone. */
  lemma {:induction false} RemovalsOnlyRemove(defs: Definitions, asg: Assignments, p: PeerId, d: seq<RoleAssignmentMsg>)
    requires forall m :: m in d && IsFor(defs, m, p) ==> Names(defs, m) == []
    ensures var a := ApplyAll(defs, asg, d);
      && (p in a ==> p in asg && a[p] == asg[p])
      && forall m :: m in d && IsFor(defs, m, p) && (p in asg ==> asg[p].hlcTs < m.hlcTs) ==> p !in a
  {
    if d != [] {
      var front, last := d[..|d| - 1], d[|d| - 1];
      assert d == front + [last];
      RemovalsOnlyRemove(defs, asg, p, front);
      EntryAfter(defs, ApplyAll(defs, asg, front), last, p);
    }
  }

  lemma {:induction false} Newest(defs: Definitions, ms: seq<RoleAssignmentMsg>, p: PeerId) returns (t: Option<RoleAssignmentMsg>)
    ensures t.None? ==> forall m :: m in ms ==> !IsFor(defs, m, p)
    ensures t.Some? ==> t.value in ms && IsFor(defs, t.value, p) && forall m :: m in ms && IsFor(defs, m, p) ==> m.hlcTs <= t.value.hlcTs
  {
    if ms == [] {
      t := None;
    } else {
      var front, last := ms[..|ms| - 1], ms[|ms| - 1];
      assert ms == front + [last];
      t := Newest(defs, front, p);
      if IsFor(defs, last, p) && (t.None? || t.value.hlcTs < last.hlcTs) {
        t := Some(last);
      }
    }
  }

  /** Then a peer's final entry depends only on which messages were delivered. */
  lemma FinalEntryIsDetermined(defs: Definitions, asg: Assignments, ms: seq<RoleAssignmentMsg>, d: seq<RoleAssignmentMsg>, p: PeerId)
    requires TiesAgree(defs, asg, ms) && NoDanglingRemoval(defs, asg, ms) && SameMessages(d, ms)
    ensures var a, b := ApplyAll(defs, asg, d), ApplyAll(defs, asg, ms);
      (p in a <==> p in b) && (p in a ==> a[p] == b[p])
  {
    var t := Newest(defs, ms, p);
    if t.None? || (p in asg && t.value.hlcTs <= asg[p].hlcTs) {
      StaleChangesNothing(defs, asg, p, d);
      StaleChangesNothing(defs, asg, p, ms);
    } else {
      assert IsTop(defs, asg, ms, t.value, p);
      if x :| IsNonEmptyTop(defs, asg, ms, x, p) {
        TopWins(defs, asg, ms, x, p, d);
        TopWins(defs, asg, ms, x, p, ms);
      } else {
        assert forall m :: m in ms && IsFor(defs, m, p) ==> Names(defs, m) == [];
        RemovalsOnlyRemove(defs, asg, p, d);
        RemovalsOnlyRemove(defs, asg, p, ms);
      }
    }
  }

  /** Stored entries are never newer than the newest message, and never equal to a removal. */
  lemma {:induction false} EntriesComeFromMessages(defs: Definitions, asg: Assignments, p: PeerId, d: seq<RoleAssignmentMsg>)
    ensures var a := ApplyAll(defs, asg, d);
      p in a && !(p in asg && a[p] == asg[p]) ==>
        exists m :: m in d && IsFor(defs, m, p) && Names(defs, m) != [] && a[p].hlcTs == m.hlcTs
  {
    if d != [] {
      var front, last := d[..|d| - 1], d[|d| - 1];
      assert d == front + [last];
      EntriesComeFromMessages(defs, asg, p, front);
      EntryAfter(defs, ApplyAll(defs, asg, front), last, p);
    }
  }

  /** If the newest are all empty and another is not, one order ends without an entry and another with one. */
  lemma DanglingRemovalDiverges(defs: Definitions, asg: Assignments, ms: seq<RoleAssignmentMsg>,
                                e: RoleAssignmentMsg, n: RoleAssignmentMsg, p: PeerId)
    requires IsTop(defs, asg, ms, e, p) && !(exists t :: IsNonEmptyTop(defs, asg, ms, t, p))
    requires n in ms && IsFor(defs, n, p) && Names(defs, n) != []
    ensures SameMessages(ms + [e], ms) && SameMessages(ms + [e] + [n], ms)
    ensures p !in ApplyAll(defs, asg, ms + [e])
    ensures p in ApplyAll(defs, asg, ms + [e] + [n])
  {
    EntriesComeFromMessages(defs, asg, p, ms);
    assert Names(defs, e) == [] by {
      assert !IsNonEmptyTop(defs, asg, ms, e, p);
    }
    assert forall m :: m in ms && IsFor(defs, m, p) && Names(defs, m) != [] && m.hlcTs == e.hlcTs ==> IsNonEmptyTop(defs, asg, ms, m, p);
    assert (ms + [e])[..|ms|] == ms;
    assert (ms + [e] + [n])[..|ms| + 1] == ms + [e];
  }

  /** Of several newest assignments with equal stamps, the first to arrive is kept. */
  lemma {:induction false} FirstTopStays(defs: Definitions, asg: Assignments, ms: seq<RoleAssignmentMsg>,
                                         x: RoleAssignmentMsg, p: PeerId, d: seq<RoleAssignmentMsg>)
    requires IsNonEmptyTop(defs, asg, ms, x, p) && forall m :: m in d ==> m in ms
    ensures p in ApplyAll(defs, asg, [x] + d)
    ensures ApplyAll(defs, asg, [x] + d)[p] == Assignment(Names(defs, x), x.hlcTs)
  {
    if d == [] {
      assert [x] + d == [x] && [x][..0] == [];
      EntryAfter(defs, asg, x, p);
    } else {
      var front, last := d[..|d| - 1], d[|d| - 1];
      assert d == front + [last];
      FirstTopStays(defs, asg, ms, x, p, front);
      assert [x] + d == [x] + front + [last];
      OneMoreMessage(defs, asg, [x] + front, last);
      NotNewerChangesNothing(defs, ApplyAll(defs, asg, [x] + front), last, p);
    }
  }

  lemma NotNewerChangesNothing(defs: Definitions, asg: Assignments, m: RoleAssignmentMsg, p: PeerId)
    requires p in asg && (IsFor(defs, m, p) ==> m.hlcTs <= asg[p].hlcTs)
    ensures p in ApplyOne(defs, asg, m) && ApplyOne(defs, asg, m)[p] == asg[p]
  {
    EntryAfter(defs, asg, m, p);
  }

  lemma OneMoreMessage(defs: Definitions, asg: Assignments, front: seq<RoleAssignmentMsg>, last: RoleAssignmentMsg)
    ensures ApplyAll(defs, asg, front + [last]) == ApplyOne(defs, ApplyAll(defs, asg, front), last)
  {
    assert (front + [last])[..|front|] == front;
  }

  /** So two that disagree leave peers apart that received them in different orders. */
  lemma TiesDiverge(defs: Definitions, asg: Assignments, ms: seq<RoleAssignmentMsg>,
                    x: RoleAssignmentMsg, y: RoleAssignmentMsg, p: PeerId)
    requires IsNonEmptyTop(defs, asg, ms, x, p) && IsNonEmptyTop(defs, asg, ms, y, p) && Names(defs, x) != Names(defs, y)
    ensures SameMessages([x] + ms, ms) && SameMessages([y] + ms, ms)
    ensures ApplyAll(defs, asg, [x] + ms) != ApplyAll(defs, asg, [y] + ms)
  {
    FirstTopStays(defs, asg, ms, x, p, ms);
    FirstTopStays(defs, asg, ms, y, p, ms);
  }

  /**
   From fixed definitions and a common start, gossiped assignments converge under every order and
   repetition exactly when newest ones with equal stamps agree and no removal is left dangling.
   */
  lemma ConvergesExactlyWhen(defs: Definitions, asg: Assignments, ms: seq<RoleAssignmentMsg>)
    ensures Converges(defs, asg, ms) <==> TiesAgree(defs, asg, ms) && NoDanglingRemoval(defs, asg, ms)
  {
    if !TiesAgree(defs, asg, ms) {
      TiesPreventConvergence(defs, asg, ms);
    } else if !NoDanglingRemoval(defs, asg, ms) {
      DanglingRemovalPreventsConvergence(defs, asg, ms);
    } else {
      OtherwiseConverges(defs, asg, ms);
    }
  }

  lemma TwoOutcomes(defs: Definitions, asg: Assignments, ms: seq<RoleAssignmentMsg>, d: seq<RoleAssignmentMsg>, e: seq<RoleAssignmentMsg>)
    requires SameMessages(d, ms) && SameMessages(e, ms) && ApplyAll(defs, asg, d) != ApplyAll(defs, asg, e)
    ensures !Converges(defs, asg, ms)
  {
  }

  lemma TiesPreventConvergence(defs: Definitions, asg: Assignments, ms: seq<RoleAssignmentMsg>)
    requires !TiesAgree(defs, asg, ms)
    ensures !Converges(defs, asg, ms)
  {
    var x, y, p :| IsNonEmptyTop(defs, asg, ms, x, p) && IsNonEmptyTop(defs, asg, ms, y, p) && Names(defs, x) != Names(defs, y);
    TiesDiverge(defs, asg, ms, x, y, p);
    TwoOutcomes(defs, asg, ms, [x] + ms, [y] + ms);
  }

  lemma DanglingRemovalPreventsConvergence(defs: Definitions, asg: Assignments, ms: seq<RoleAssignmentMsg>)
    requires !NoDanglingRemoval(defs, asg, ms)
    ensures !Converges(defs, asg, ms)
  {
    var e, m, p :| IsTop(defs, asg, ms, e, p) && m in ms && IsFor(defs, m, p) && Names(defs, m) != []
                   && !(exists t :: IsNonEmptyTop(defs, asg, ms, t, p));
    DanglingRemovalDiverges(defs, asg, ms, e, m, p);
    TwoOutcomes(defs, asg, ms, ms + [e], ms + [e] + [m]);
  }

  lemma OtherwiseConverges(defs: Definitions, asg: Assignments, ms: seq<RoleAssignmentMsg>)
    requires TiesAgree(defs, asg, ms) && NoDanglingRemoval(defs, asg, ms)
    ensures Converges(defs, asg, ms)
  {
    forall d | SameMessages(d, ms) ensures ApplyAll(defs, asg, d) == ApplyAll(defs, asg, ms) {
      SameFinalState(defs, asg, ms, d);
    }
  }

  lemma SameFinalState(defs: Definitions, asg: Assignments, ms: seq<RoleAssignmentMsg>, d: seq<RoleAssignmentMsg>)
    requires TiesAgree(defs, asg, ms) && NoDanglingRemoval(defs, asg, ms) && SameMessages(d, ms)
    ensures ApplyAll(defs, asg, d) == ApplyAll(defs, asg, ms)
  {
    var a, b := ApplyAll(defs, asg, d), ApplyAll(defs, asg, ms);
    forall p ensures (p in a <==> p in b) && (p in a ==> a[p] == b[p]) {
      FinalEntryIsDetermined(defs, asg, ms, d, p);
    }
  }

  /** In particular non-empty assignments converge, to the newest one of each peer. */
  lemma NonEmptyAssignmentsConverge(defs: Definitions, asg: Assignments, ds: seq<Delivery>, es: seq<Delivery>)
    requires TiesAgree(defs, asg, Flatten(ds)) && SameMessages(Flatten(es), Flatten(ds))
    requires forall m, p :: m in Flatten(ds) && IsFor(defs, m, p) ==> Names(defs, m) != []
    ensures Deliver(defs, asg, ds) == Deliver(defs, asg, es)
    ensures forall t, p :: IsTop(defs, asg, Flatten(ds), t, p)
              ==> p in Deliver(defs, asg, ds) && Deliver(defs, asg, ds)[p] == Assignment(Names(defs, t), t.hlcTs)
  {
    var ms := Flatten(ds);
    GroupingDoesNotMatter(defs, asg, ds);
    GroupingDoesNotMatter(defs, asg, es);
    assert NoDanglingRemoval(defs, asg, ms) by {
      assert forall t, p :: IsTop(defs, asg, ms, t, p) ==> IsNonEmptyTop(defs, asg, ms, t, p);
    }
    OtherwiseConverges(defs, asg, ms);
    forall t, p | IsTop(defs, asg, ms, t, p)
      ensures p in Deliver(defs, asg, ds) && Deliver(defs, asg, ds)[p] == Assignment(Names(defs, t), t.hlcTs)
    {
      TopWins(defs, asg, ms, t, p, ms);
    }
  }
}
