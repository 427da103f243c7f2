/** Session membership, bans, and the admin daemon's handlers that change them together with roles. */
module Sessions {
  import opened Wrappers
  import opened HybridClocks
  import opened RoleManagers
  import RoleConvergence

  type SessionId = string

  datatype UserInfo = UserInfo(username: string, roles: seq<string>)

  datatype BanInfo = BanInfo(username: string, bannedBy: PeerId, reason: string, bannedAt: int)

  datatype Session = Session(admin: PeerId, name: string, members: map<PeerId, UserInfo>, banned: map<PeerId, BanInfo>)

  /** A peer id as it arrives in a command: absent, undecodable, or decoded. */
  datatype WirePeer = Missing | Malformed | Peer(id: PeerId)

  /** Members and permissions as one daemon sees them. */
  datatype Club = Club(sessions: map<SessionId, Session>, defs: Definitions, asg: Assignments)
  {
    function Created(sid: SessionId, admin: PeerId, username: string, name: string, ts: int): Club {
      if sid in sessions then this
      else Club(sessions[sid := Session(admin, name, map[admin := UserInfo(username, ["Admin"])], map[])],
                defs, SetRoles(defs, asg, admin, ["Admin"], ts))
    }

    /** An empty list of roles stands for the default one. */
    function Added(sid: SessionId, peer: PeerId, username: string, roles: seq<string>, ts: int): Club {
      if sid !in sessions || peer in sessions[sid].members then this
      else
        var given := if |roles| == 0 then ["Viewer"] else roles;
        var s := sessions[sid];
        Club(sessions[sid := s.(members := s.members[peer := UserInfo(username, given)])],
             defs, SetRoles(defs, asg, peer, given, ts))
    }

    function Removed(sid: SessionId, peer: PeerId): Club {
      if sid !in sessions then this
      else this.(sessions := sessions[sid := sessions[sid].(members := sessions[sid].members - {peer})])
    }

    function Banned(sid: SessionId, peer: PeerId, bannedBy: PeerId, reason: string, at: int): Club {
      if sid !in sessions then this
      else
        var s := sessions[sid];
        var username := if peer in s.members then s.members[peer].username else "";
        this.(sessions := sessions[sid := s.(members := s.members - {peer},
                                             banned := s.banned[peer := BanInfo(username, bannedBy, reason, at)])])
    }

    predicate IsMember(sid: SessionId, peer: PeerId) {
      sid in sessions && peer in sessions[sid].members
    }

    predicate IsBanned(sid: SessionId, peer: PeerId) {
      sid in sessions && peer in sessions[sid].banned
    }

    /** The common guard of kick and ban: the sender may act on this target in its current session. */
    predicate MayExpel(current: Option<SessionId>, sender: PeerId, target: WirePeer, perm: Permission) {
      && Has(MaskOf(defs, asg, sender), perm)
      && target.Peer? && target.id != sender
      && current.Some? && current.value in sessions
      && !(sessions[current.value].admin == target.id && sender != sessions[current.value].admin)
      && IsMember(current.value, target.id)
    }
  }

  /** `current` is the session a command arrives in, if any; `ts` the stamp the clock would give. */
  datatype Step =
    | Create(sid: SessionId, admin: PeerId, username: string, name: string, ts: int)
    | Join(sid: SessionId, peer: PeerId, username: string, ts: int)
    | Kick(current: Option<SessionId>, sender: PeerId, target: WirePeer, ts: int)
    | Ban(current: Option<SessionId>, sender: PeerId, target: WirePeer, reason: string, at: int, ts: int)
    | Leave(current: Option<SessionId>, sender: PeerId)
    | PeerLeft(current: Option<SessionId>, from: PeerId, peer: PeerId, hlcTs: int)

  function Next(me: PeerId, c: Club, step: Step): Club {
    match step
    case Create(sid, admin, username, name, ts) => c.Created(sid, admin, username, name, ts)
    case Join(sid, peer, username, ts) =>
      if sid in c.sessions && c.sessions[sid].admin == me && !c.IsBanned(sid, peer)
      then c.Added(sid, peer, username, ["Viewer"], ts) else c
    case Kick(current, sender, target, ts) =>
      if c.MayExpel(current, sender, target, PERM_KICK_USER) then
        var gone := c.Removed(current.value, target.id);
        gone.(asg := SetRoles(c.defs, c.asg, target.id, [], ts))
      else c
    case Ban(current, sender, target, reason, at, ts) =>
      if c.MayExpel(current, sender, target, PERM_BAN_USER) then
        var gone := c.Banned(current.value, target.id, sender, reason, at);
        gone.(asg := SetRoles(c.defs, c.asg, target.id, [], ts))
      else c
    case Leave(current, sender) => if current.Some? then c.Removed(current.value, sender) else c
    case PeerLeft(current, _, peer, hlcTs) =>
      var gone := if current.Some? then c.Removed(current.value, peer) else c;
      gone.(asg := ApplyOne(c.defs, c.asg, RoleAssignmentMsg(peer, [], hlcTs)))
  }

  class SessionManager {
    var sessions: map<SessionId, Session>
    const roleManager: RoleManager

    constructor (rm: RoleManager)
      ensures roleManager == rm && sessions == map[]
    {
      roleManager := rm;
      sessions := map[];
    }

    function State(): Club
      reads this, roleManager
    {
      Club(sessions, roleManager.definitions, roleManager.assignments)
    }

    method CreateSession(sid: SessionId, admin: PeerId, username: string, name: string, now: int) returns (ok: bool)
      modifies this, roleManager`assignments, roleManager.clock
      ensures State() == old(State()).Created(sid, admin, username, name, Pack(Tick(old(roleManager.clock.State()), now)))
      ensures ok <==> sid !in old(sessions)
    {
      if sid in sessions {
        return false;
      }
      sessions := sessions[sid := Session(admin, name, map[admin := UserInfo(username, ["Admin"])], map[])];
      var _ := roleManager.SetPeerRoles(admin, ["Admin"], now);
      return true;
    }

    method AddPeerToSession(sid: SessionId, peer: PeerId, username: string, initialRoles: seq<string>, now: int)
      returns (info: Result<UserInfo>)
      modifies this, roleManager`assignments, roleManager.clock
      ensures State() == old(State()).Added(sid, peer, username, initialRoles, Pack(Tick(old(roleManager.clock.State()), now)))
      ensures info.Err? <==> sid !in old(sessions)
      ensures info.Ok? ==> info.value == sessions[sid].members[peer]
    {
      if sid !in sessions {
        return Err;
      }
      var session := sessions[sid];
      if peer in session.members {
        return Ok(session.members[peer]);
      }
      var roles := if |initialRoles| == 0 then ["Viewer"] else initialRoles;
      var newUserInfo := UserInfo(username, roles);
      sessions := sessions[sid := session.(members := session.members[peer := newUserInfo])];
      var _ := roleManager.SetPeerRoles(peer, roles, now);
      return Ok(newUserInfo);
    }

    method RemovePeerFromSession(sid: SessionId, peer: PeerId) returns (removed: Result<bool>)
      modifies this
      ensures State() == old(State()).Removed(sid, peer)
      ensures removed == if sid !in old(sessions) then Err else Ok(peer in old(sessions)[sid].members)
    {
      if sid !in sessions {
        return Err;
      }
      var session := sessions[sid];
      if peer !in session.members {
        assert session.members - {peer} == session.members;
        assert sessions[sid := session] == sessions;
        return Ok(false);
      }
      sessions := sessions[sid := session.(members := session.members - {peer})];
      return Ok(true);
    }

    method IsPeerBanned(sid: SessionId, peer: PeerId) returns (banned: bool)
      ensures banned <==> State().IsBanned(sid, peer)
    {
      return sid in sessions && peer in sessions[sid].banned;
    }

    method IsPeerInSession(sid: SessionId, peer: PeerId) returns (member: bool)
      ensures member <==> State().IsMember(sid, peer)
    {
      return sid in sessions && peer in sessions[sid].members;
    }

    method BanPeer(sid: SessionId, peer: PeerId, bannedBy: PeerId, reason: string, bannedAt: int) returns (ok: bool)
      modifies this
      ensures State() == old(State()).Banned(sid, peer, bannedBy, reason, bannedAt)
      ensures ok <==> sid in old(sessions)
    {
      if sid !in sessions {
        return false;
      }
      var session := sessions[sid];
      var username := "";
      var members := session.members;
      if peer in session.members {
        username := session.members[peer].username;
        members := members - {peer};
      }
      assert members == session.members - {peer};
      sessions := sessions[sid := session.(members := members,
                                           banned := session.banned[peer := BanInfo(username, bannedBy, reason, bannedAt)])];
      return true;
    }
  }

  class Server {
    const me: PeerId
    const sessionManager: SessionManager
    const roleManager: RoleManager

    constructor (me: PeerId, sm: SessionManager)
      ensures this.me == me && sessionManager == sm && roleManager == sm.roleManager
    {
      this.me, sessionManager, roleManager := me, sm, sm.roleManager;
    }

    ghost predicate Valid() {
      roleManager == sessionManager.roleManager
    }

    method HandleAuthStream(remote: PeerId, sid: SessionId, username: string, now: int) returns (admitted: bool)
      requires Valid()
      modifies sessionManager, roleManager`assignments, roleManager.clock
      ensures sessionManager.State() ==
              Next(me, old(sessionManager.State()), Join(sid, remote, username, Pack(Tick(old(roleManager.clock.State()), now))))
      ensures admitted <==> sid in old(sessionManager.sessions) && old(sessionManager.sessions)[sid].admin == me
                            && !old(sessionManager.State().IsBanned(sid, remote))
      ensures admitted ==> sessionManager.State().IsMember(sid, remote)
    {
      if sid !in sessionManager.sessions {
        return false;
      }
      if sessionManager.sessions[sid].admin != me {
        return false;
      }
      var banned := sessionManager.IsPeerBanned(sid, remote);
      if banned {
        return false;
      }
      var info := sessionManager.AddPeerToSession(sid, remote, username, ["Viewer"], now);
      return info.Ok?;
    }

    /** The checks that kick and ban share, in order. */
    method Expellable(sender: PeerId, target: WirePeer, current: Option<SessionId>, perm: Permission) returns (ok: bool)
      requires Valid()
      ensures ok <==> sessionManager.State().MayExpel(current, sender, target, perm)
    {
      var senderPerms := roleManager.GetPermissionsForPeer(sender);
      if !Has(senderPerms, perm) {
        return false;
      }
      if !target.Peer? || target.id == sender {
        return false;
      }
      if current.None? || current.value !in sessionManager.sessions {
        return false;
      }
      var session := sessionManager.sessions[current.value];
      if session.admin == target.id && sender != session.admin {
        return false;
      }
      ok := sessionManager.IsPeerInSession(current.value, target.id);
    }

    method HandleKickPeerCmd(sender: PeerId, target: WirePeer, current: Option<SessionId>, now: int)
      requires Valid()
      modifies sessionManager, roleManager`assignments, roleManager.clock
      ensures sessionManager.State() ==
              Next(me, old(sessionManager.State()), Kick(current, sender, target, Pack(Tick(old(roleManager.clock.State()), now))))
    {
      var ok := Expellable(sender, target, current, PERM_KICK_USER);
      if !ok {
        return;
      }
      var removed := sessionManager.RemovePeerFromSession(current.value, target.id);
      if removed != Ok(true) {
        return;
      }
      var _ := roleManager.SetPeerRoles(target.id, [], now);
    }

    method HandleBanPeerCmd(sender: PeerId, target: WirePeer, current: Option<SessionId>, reason: string, at: int, now: int)
      requires Valid()
      modifies sessionManager, roleManager`assignments, roleManager.clock
      ensures sessionManager.State() ==
              Next(me, old(sessionManager.State()), Ban(current, sender, target, reason, at, Pack(Tick(old(roleManager.clock.State()), now))))
    {
      var ok := Expellable(sender, target, current, PERM_BAN_USER);
      if !ok {
        return;
      }
      var banned := sessionManager.BanPeer(current.value, target.id, sender, reason, at);
      if !banned {
        return;
      }
      var _ := roleManager.SetPeerRoles(target.id, [], now);
    }

    method HandleLeave(sender: PeerId, current: Option<SessionId>)
      modifies sessionManager
      ensures sessionManager.State() == Next(me, old(sessionManager.State()), Leave(current, sender))
    {
      if current.Some? {
        var _ := sessionManager.RemovePeerFromSession(current.value, sender);
      }
    }

    method HandleGossipPeerLeft(from: PeerId, peer: PeerId, hlcTs: int, current: Option<SessionId>, now: int)
      requires Valid()
      modifies sessionManager, roleManager`assignments, roleManager.clock
      ensures sessionManager.State() == Next(me, old(sessionManager.State()), PeerLeft(current, from, peer, hlcTs))
      ensures roleManager.clock.State() ==
              if hlcTs > 0 then Merge(old(roleManager.clock.State()), Unpack(hlcTs), now) else old(roleManager.clock.State())
    {
      if hlcTs > 0 {
        var _ := roleManager.clock.UpdateHLC(hlcTs, now);
      }
      var _ := roleManager.ApplyPeerAssignment(RoleAssignmentMsg(peer, [], hlcTs));
      if current.Some? {
        var _ := sessionManager.RemovePeerFromSession(current.value, peer);
      }
    }
  }

  // ----- safety over runs -----

  /** Nobody is both a member and banned, and no session's admin is banned. */
  ghost predicate Orderly(c: Club) {
    forall sid :: sid in c.sessions ==>
      c.sessions[sid].members.Keys !! c.sessions[sid].banned.Keys && c.sessions[sid].admin !in c.sessions[sid].banned
  }

  /** Sessions persist with their admins, and bans are never lifted. */
  ghost predicate BansPersist(c: Club, c': Club) {
    forall sid :: sid in c.sessions ==>
      && sid in c'.sessions && c'.sessions[sid].admin == c.sessions[sid].admin
      && c.sessions[sid].banned.Keys <= c'.sessions[sid].banned.Keys
  }

  /** One session changed in place: its admin stays, bans only grow, and the two lists stay apart. */
  lemma SessionReplaced(c: Club, c': Club, sid: SessionId, s': Session)
    requires Orderly(c) && sid in c.sessions && c'.sessions == c.sessions[sid := s']
    requires s'.admin == c.sessions[sid].admin && c.sessions[sid].banned.Keys <= s'.banned.Keys
    requires s'.members.Keys !! s'.banned.Keys && s'.admin !in s'.banned
    ensures Orderly(c') && BansPersist(c, c')
  {
  }

  lemma RemovalIsOrderly(c: Club, sid: SessionId, peer: PeerId, c': Club)
    requires Orderly(c) && c'.sessions == c.Removed(sid, peer).sessions
    ensures Orderly(c') && BansPersist(c, c')
  {
    if sid in c.sessions {
      SessionReplaced(c, c', sid, c'.sessions[sid]);
    }
  }

  lemma NextIsOrderly(me: PeerId, c: Club, step: Step)
    requires Orderly(c)
    ensures Orderly(Next(me, c, step)) && BansPersist(c, Next(me, c, step))
  {
    var c' := Next(me, c, step);
    match step
    case Create(sid, admin, username, name, ts) =>
    case Join(sid, peer, username, ts) =>
      if c' != c {
        SessionReplaced(c, c', sid, c'.sessions[sid]);
      }
    case Kick(current, sender, target, ts) =>
      if c.MayExpel(current, sender, target, PERM_KICK_USER) {
        RemovalIsOrderly(c, current.value, target.id, c');
      }
    case Ban(current, sender, target, reason, at, ts) =>
      if c.MayExpel(current, sender, target, PERM_BAN_USER) {
        SessionReplaced(c, c', current.value, c'.sessions[current.value]);
      }
    case Leave(current, sender) =>
      if current.Some? {
        RemovalIsOrderly(c, current.value, sender, c');
      }
    case PeerLeft(current, _, peer, hlcTs) =>
      if current.Some? {
        RemovalIsOrderly(c, current.value, peer, c');
      }
  }

  ghost predicate IsTrace(me: PeerId, trace: seq<Club>, steps: seq<Step>) {
    |trace| == |steps| + 1 && forall i :: 0 <= i < |steps| ==> trace[i + 1] == Next(me, trace[i], steps[i])
  }

  lemma {:induction false} RunIsOrderly(me: PeerId, trace: seq<Club>, steps: seq<Step>, m: nat, n: nat)
    requires IsTrace(me, trace, steps) && m <= n <= |steps| && Orderly(trace[m])
    ensures Orderly(trace[n]) && BansPersist(trace[m], trace[n])
    decreases n
  {
    if m < n {
      RunIsOrderly(me, trace, steps, m, n - 1);
      NextIsOrderly(me, trace[n - 1], steps[n - 1]);
    }
  }

  /** Once banned from a session, a peer is not a member of it in any later state of the run. */
  lemma BannedPeersStayOut(me: PeerId, trace: seq<Club>, steps: seq<Step>, m: nat, n: nat, sid: SessionId, peer: PeerId)
    requires IsTrace(me, trace, steps) && trace[0].sessions == map[] && m <= n <= |steps|
    requires trace[m].IsBanned(sid, peer)
    ensures !trace[n].IsMember(sid, peer) && trace[n].IsBanned(sid, peer)
  {
    RunIsOrderly(me, trace, steps, 0, m);
    RunIsOrderly(me, trace, steps, m, n);
  }

  /**
   A session's admin is never banned, and stops being a member exactly by its own leave or by a
   message that it left, whoever sent that.
   */
  lemma AdminIsNeverExpelled(me: PeerId, trace: seq<Club>, steps: seq<Step>, n: nat, sid: SessionId)
    requires IsTrace(me, trace, steps) && trace[0].sessions == map[] && n < |steps|
    requires sid in trace[n].sessions
    ensures sid in trace[n + 1].sessions
    ensures var admin := trace[n].sessions[sid].admin;
      && !trace[n + 1].IsBanned(sid, admin)
      && (trace[n].IsMember(sid, admin) ==> (!trace[n + 1].IsMember(sid, admin) <==>
            steps[n] == Leave(Some(sid), admin) || (exists from, ts :: steps[n] == PeerLeft(Some(sid), from, admin, ts))))
  {
    RunIsOrderly(me, trace, steps, 0, n);
    NextIsOrderly(me, trace[n], steps[n]);
    var admin := trace[n].sessions[sid].admin;
    if steps[n].PeerLeft? {
      assert steps[n] == PeerLeft(steps[n].current, steps[n].from, steps[n].peer, steps[n].hlcTs);
    }
  }

  /** A kick or ban that takes effect leaves the target outside and without any permission. */
  lemma ExpelledPeersLosePermissions(me: PeerId, c: Club, step: Step)
    requires step.Kick? || step.Ban?
    requires c.MayExpel(step.current, step.sender, step.target, if step.Kick? then PERM_KICK_USER else PERM_BAN_USER)
    ensures var c' := Next(me, c, step);
      && !c'.IsMember(step.current.value, step.target.id)
      && MaskOf(c'.defs, c'.asg, step.target.id) == 0
      && (step.Ban? ==> c'.IsBanned(step.current.value, step.target.id))
  {
    assert NormalizeAll(c.defs, []) == Some([]);
  }

  // ----- who becomes a member, stops being one, and is banned -----

  /** The step brings this peer into this session: as its creator, or admitted by its admin. */
  predicate BringsIn(me: PeerId, c: Club, step: Step, sid: SessionId, peer: PeerId) {
    match step
    case Create(s, admin, _, _, _) => s == sid && admin == peer && sid !in c.sessions
    case Join(s, p, _, _) =>
      s == sid && p == peer && sid in c.sessions && c.sessions[sid].admin == me && peer !in c.sessions[sid].banned
    case _ => false
  }

  /** The sender holds the permission bit and is neither the target nor acting on the admin of its session. */
  predicate ExpelsBy(c: Club, current: Option<SessionId>, sender: PeerId, target: WirePeer, bit: bv32, sid: SessionId, peer: PeerId) {
    && current == Some(sid) && target == Peer(peer) && sid in c.sessions && peer in c.sessions[sid].members
    && MaskOf(c.defs, c.asg, sender) & bit != 0 && sender != peer && c.sessions[sid].admin != peer
  }

  /** The step takes this peer out of this session: expelled, by its own leave, or by news that it left. */
  predicate TakesOut(c: Club, step: Step, sid: SessionId, peer: PeerId) {
    match step
    case Kick(current, sender, target, _) => ExpelsBy(c, current, sender, target, 4, sid, peer)
    case Ban(current, sender, target, _, _, _) => ExpelsBy(c, current, sender, target, 8, sid, peer)
    case Leave(current, sender) => current == Some(sid) && sender == peer
    case PeerLeft(current, _, p, _) => current == Some(sid) && p == peer
    case _ => false
  }

  /** After any step the members are those before, less those it takes out, and those it brings in. */
  lemma MembersExactlyAfter(me: PeerId, c: Club, step: Step, sid: SessionId, peer: PeerId)
    ensures Next(me, c, step).IsMember(sid, peer)
       <==> BringsIn(me, c, step, sid, peer) || (c.IsMember(sid, peer) && !TakesOut(c, step, sid, peer))
  {
  }

  /** And the banned are those before, and one expelled by a ban, on record as it was given. */
  lemma BannedExactlyAfter(me: PeerId, c: Club, step: Step, sid: SessionId, peer: PeerId)
    ensures var c' := Next(me, c, step);
      && (c'.IsBanned(sid, peer) <==> c.IsBanned(sid, peer) || (step.Ban? && TakesOut(c, step, sid, peer)))
      && (step.Ban? && TakesOut(c, step, sid, peer) ==>
            c'.sessions[sid].banned[peer] == BanInfo(c.sessions[sid].members[peer].username, step.sender, step.reason, step.at))
      && (c.IsBanned(sid, peer) && !(step.Ban? && TakesOut(c, step, sid, peer)) ==>
            c'.sessions[sid].banned[peer] == c.sessions[sid].banned[peer])
  {
  }

  /** Members keep what is on record about them, and sessions their name and admin. */
  lemma RecordsStay(me: PeerId, c: Club, step: Step, sid: SessionId, peer: PeerId)
    requires sid in c.sessions
    ensures var c' := Next(me, c, step);
      && sid in c'.sessions && c'.sessions[sid].name == c.sessions[sid].name && c'.sessions[sid].admin == c.sessions[sid].admin
      && (c.IsMember(sid, peer) && c'.IsMember(sid, peer) ==> c'.sessions[sid].members[peer] == c.sessions[sid].members[peer])
  {
  }

  // ----- what members may do -----

  /** The one peer whose roles a step may change. */
  function Subject(step: Step): Option<PeerId> {
    match step
    case Create(_, admin, _, _, _) => Some(admin)
    case Join(_, peer, _, _) => Some(peer)
    case Kick(_, _, target, _) => if target.Peer? then Some(target.id) else None
    case Ban(_, _, target, _, _, _) => if target.Peer? then Some(target.id) else None
    case Leave(_, _) => None
    case PeerLeft(_, _, peer, _) => Some(peer)
  }

  /** No step changes the definitions or the roles of anyone but its subject. */
  lemma OthersKeepTheirRoles(me: PeerId, c: Club, step: Step, q: PeerId)
    requires Subject(step) != Some(q)
    ensures var c' := Next(me, c, step);
      && c'.defs == c.defs && (q in c'.asg <==> q in c.asg) && (q in c.asg ==> c'.asg[q] == c.asg[q])
      && MaskOf(c'.defs, c'.asg, q) == MaskOf(c.defs, c.asg, q)
  {
  }

  lemma OneRole(defs: Definitions, asg: Assignments, target: PeerId, name: string, key: string, ts: int)
    requires Normalize(name) == key && key != "" && key in defs
    ensures MaskOf(defs, SetRoles(defs, asg, target, [name], ts), target) == defs[key].permissions
  {
    assert [name][..0] == [] && [key][..0] == [];
    OneName(defs, name, key);
    RoleConvergence.GivenRolesMask(defs, asg, target, [name], ts);
    OneMask(defs, key);
  }

  lemma OneName(defs: Definitions, name: string, key: string)
    requires Normalize(name) == key && key != "" && key in defs
    ensures NormalizeAll(defs, [name]) == Some([key])
  {
    assert [name][..0] == [] && [] + [key] == [key];
    assert NormalizeAll(defs, [name][..0]) == Some([]);
  }

  lemma OneMask(defs: Definitions, key: string)
    requires key in defs
    ensures MaskOfNames(defs, [key]) == defs[key].permissions
  {
    OneMoreMask(defs, [], key);
    assert [] + [key] == [key];
    NothingOr(defs[key].permissions);
  }

  lemma NothingOr(p: Permission)
    ensures 0 | p == p
  {
  }

  /**
   Under the default definitions a new member may view and chat, and nothing else: it may neither
   kick, ban, stream nor change the queue.
   */
  lemma AdmittedPeerMayViewAndChat(me: PeerId, c: Club, sid: SessionId, peer: PeerId, username: string, ts: int)
    requires c.defs == DEFAULT_DEFINITIONS && !c.IsMember(sid, peer)
    requires BringsIn(me, c, Join(sid, peer, username, ts), sid, peer)
    ensures var c' := Next(me, c, Join(sid, peer, username, ts)); var mask := MaskOf(c'.defs, c'.asg, peer);
      && c'.sessions[sid].members[peer] == UserInfo(username, ["Viewer"])
      && mask == 3
      && Has(mask, PERM_VIEW) && Has(mask, PERM_CHAT)
      && !Has(mask, PERM_KICK_USER) && !Has(mask, PERM_BAN_USER) && !Has(mask, PERM_STREAM) && !Has(mask, PERM_QUEUE)
  {
    RoleConvergence.DefaultRolesAreNamed();
    OneRole(c.defs, c.asg, peer, "Viewer", "viewer", ts);
    MaskOfThree();
  }

  lemma MaskOfThree()
    ensures (1 as bv32) | 2 == 3
    ensures Has(3, PERM_VIEW) && Has(3, PERM_CHAT)
    ensures !Has(3, PERM_KICK_USER) && !Has(3, PERM_BAN_USER) && !Has(3, PERM_STREAM) && !Has(3, PERM_QUEUE)
  {
  }

  /** Who creates a session is its only member, and may do everything. */
  lemma CreatorMayDoEverything(me: PeerId, c: Club, sid: SessionId, admin: PeerId, username: string, name: string, ts: int)
    requires c.defs == DEFAULT_DEFINITIONS && sid !in c.sessions
    ensures var c' := Next(me, c, Create(sid, admin, username, name, ts));
      && c'.sessions[sid] == Session(admin, name, map[admin := UserInfo(username, ["Admin"])], map[])
      && MaskOf(c'.defs, c'.asg, admin) == 0x1fff
  {
    RoleConvergence.DefaultRolesAreNamed();
    OneRole(c.defs, c.asg, admin, "Admin", "admin", ts);
  }

  /** A peer that joins again while it is a member keeps its roles. */
  lemma RejoiningChangesNothing(me: PeerId, c: Club, sid: SessionId, peer: PeerId, username: string, ts: int)
    requires c.IsMember(sid, peer)
    ensures Next(me, c, Join(sid, peer, username, ts)) == c
  {
  }

  /** Members added without roles get the default one, others the roles given. */
  lemma AddedPeersHaveTheirRoles(c: Club, sid: SessionId, peer: PeerId, username: string, roles: seq<string>, ts: int)
    requires sid in c.sessions && !c.IsMember(sid, peer)
    ensures var c' := c.Added(sid, peer, username, roles, ts);
      && c'.sessions[sid].members[peer] == UserInfo(username, if roles == [] then ["Viewer"] else roles)
      && c'.asg == SetRoles(c.defs, c.asg, peer, if roles == [] then ["Viewer"] else roles, ts)
  {
  }

  /** News that a peer left takes its roles exactly if it is newer than they are, or it has none. */
  lemma LeaverLosesRolesExactlyWhenNewer(me: PeerId, c: Club, current: Option<SessionId>, from: PeerId, peer: PeerId, hlcTs: int)
    ensures var asg' := Next(me, c, PeerLeft(current, from, peer, hlcTs)).asg;
      if peer in c.asg && hlcTs <= c.asg[peer].hlcTs then peer in asg' && asg'[peer] == c.asg[peer] else peer !in asg'
  {
    assert NormalizeAll(c.defs, []) == Some([]);
  }
}
