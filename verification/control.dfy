/** Roles and permissions (pkg/security/rbac.go) and the control server's request path
    (pkg/control/server.go:141-348), with a live loader. */
module Control {
  import opened Words
  import opened Text
  import opened Folds
  import opened Policies
  import opened RuleMaps
  import opened Xdp
  import opened SwapProtocol
  import opened SwapRuns
  import opened Loader
  import opened Meaning
  import opened SwapLimits
  import opened Applicability
  import opened Served
  import opened Verdicts

  datatype Role = Admin | Operator | Viewer

  datatype Peer = Peer(uid: U32, gid: U32)

  /** Commands are matched without regard to case here; an unknown one is refused to every role. */
  predicate Permitted(role: Role, command: string) {
    var c := ToLower(command);
    if c == "apply_policy" then role != Viewer
    else c == "get_status" || c == "dump_maps"
  }

  /** Who holds which role. */
  datatype Roster = Roster(adminUids: set<U32>, operatorUids: set<U32>, adminGids: set<U32>, operatorGids: set<U32>)

  /** UIDs go before GIDs, admin before operator; without credentials everyone is a viewer. */
  function RoleIn(r: Roster, peer: Option<Peer>): Role {
    match peer
    case None => Viewer
    case Some(p) =>
      if p.uid in r.adminUids then Admin
      else if p.uid in r.operatorUids then Operator
      else if p.gid in r.adminGids then Admin
      else if p.gid in r.operatorGids then Operator
      else Viewer
  }

  /** Roles over the four sets: a UID rule goes before a GID rule, admin before operator, and whoever is
      in none of them, or has no credentials, is a viewer. */
  lemma RolesSpelledOut(r: Roster, uid: U32, gid: U32)
    ensures var role := RoleIn(r, Some(Peer(uid, gid)));
            && (role == Admin <==> uid in r.adminUids || (uid !in r.operatorUids && gid in r.adminGids))
            && (role == Operator <==> && uid !in r.adminUids
                                      && (uid in r.operatorUids || (gid !in r.adminGids && gid in r.operatorGids)))
            && (role == Viewer <==> && uid !in r.adminUids && uid !in r.operatorUids
                                    && gid !in r.adminGids && gid !in r.operatorGids)
    ensures RoleIn(r, None) == Viewer
  {
  }

  /** Viewers may ask for the status and the dump, admins and operators may also apply; nobody may do
      anything else. */
  lemma PermissionsSpelledOut(command: string)
    ensures var c := ToLower(command);
            && (Permitted(Viewer, command) <==> c == "get_status" || c == "dump_maps")
            && (Permitted(Operator, command) <==> c == "apply_policy" || c == "get_status" || c == "dump_maps")
            && (Permitted(Admin, command) <==> Permitted(Operator, command))
  {
    assert "apply_policy"[0] != "get_status"[0] && "apply_policy"[0] != "dump_maps"[0];
  }

  class RbacEnforcer {
    var adminUids: set<U32>
    var operatorUids: set<U32>
    var adminGids: set<U32>
    var operatorGids: set<U32>

    /** Root is admin by UID; root's group and sudo's are by GID. */
    constructor ()
      ensures adminUids == {0} && adminGids == {0, 27} && operatorUids == {} && operatorGids == {}
    {
      adminUids, adminGids, operatorUids, operatorGids := {0}, {0, 27}, {}, {};
    }

    function Current(): Roster
      reads this
    {
      Roster(adminUids, operatorUids, adminGids, operatorGids)
    }

    function ResolveRole(peer: Option<Peer>): Role
      reads this
    {
      RoleIn(Current(), peer)
    }

    method AddAdminUid(uid: U32)
      modifies this
      ensures adminUids == old(adminUids) + {uid}
      ensures operatorUids == old(operatorUids) && adminGids == old(adminGids) && operatorGids == old(operatorGids)
      ensures forall p: Peer :: p.uid == uid ==> ResolveRole(Some(p)) == Admin
      ensures forall p: Peer :: p.uid != uid ==> ResolveRole(Some(p)) == old(ResolveRole(Some(p)))
    {
      adminUids := adminUids + {uid};
    }

    /** An admin by UID stays admin; an admin by GID alone becomes operator. */
    method AddOperatorUid(uid: U32)
      modifies this
      ensures operatorUids == old(operatorUids) + {uid}
      ensures adminUids == old(adminUids) && adminGids == old(adminGids) && operatorGids == old(operatorGids)
      ensures forall p: Peer :: p.uid == uid ==>
                ResolveRole(Some(p)) == if uid in old(adminUids) then Admin else Operator
      ensures forall p: Peer :: p.uid != uid ==> ResolveRole(Some(p)) == old(ResolveRole(Some(p)))
    {
      operatorUids := operatorUids + {uid};
    }
  }

  // ---- Requests --------------------------------------------------------------------------

  /** What arrives on a connection: peer credentials if they could be read, and a decoded request. */
  datatype Message = EndOfInput | BadJson | Request(command: string, yaml: string)

  datatype Connection = Connection(peer: Option<Peer>, message: Message)

  datatype Response =
    | NoReply
    | BadRequest
    | Forbidden
    | ApplyFailed
    | UnknownCommand
    | Applied(gen: U32, rules: nat)
    | Status(gen: U32)

  /** The generation cell and the rule maps, and how many writes they have been asked for. */
  datatype Maps = Maps(gen: U32, entries: Entries, writes: nat)

  /** The caller may apply policies, and the request is one to apply. */
  predicate MayApply(r: Roster, c: Connection) {
    c.message.Request? && c.message.command == "apply_policy" && RoleIn(r, c.peer) != Viewer
  }

  /** An accepted policy is in force under the next generation, and nothing else is in the maps. */
  ghost predicate InForce(w: World, policy: Option<Policy>, was: Maps, now: Maps) {
    && policy.Some? && Policies.Accepted(w, policy.value)
    && now.gen == Next(was.gen) && Exactly(now.entries, now.gen, PolicyImage(w, policy.value))
  }

  /** A policy in force judges every packet as its source rules say. */
  lemma InForceJudges(w: World, policy: Option<Policy>, was: Maps, now: Maps, p: Packet)
    requires InForce(w, policy, was, now)
    ensures Decide(GenView(now.entries, now.gen), p).Drop? <==> RulesDrop(w, policy.value.rules, p)
  {
    assert GenView(now.entries, now.gen) == PolicyImage(w, policy.value);
    MeaningPreserved(w, policy.value, p);
  }

  /** The fixed surroundings of a run of requests. */
  datatype Setting = Setting(world: World, fails: nat -> bool, roster: Roster, parseYaml: string -> Option<Policy>)

  /** Exactly when a request to apply is answered with success: the text parses to an accepted policy,
      all of it can be staged and finds room, and no write fails. */
  ghost predicate WouldApply(g: Setting, yaml: string, was: Maps) {
    && g.parseYaml(yaml).Some?
    && var p := g.parseYaml(yaml).value;
       && Policies.Accepted(g.world, p)
       && Succeeds(was.entries, Next(was.gen), PolicyOps(g.world, CompiledForm(p)), g.fails, was.writes)
  }

  ghost function ApplyAnswer(g: Setting, yaml: string, was: Maps): Response {
    if WouldApply(g, yaml, was) then Applied(Next(was.gen), ItemCount(CompiledForm(g.parseYaml(yaml).value)))
    else ApplyFailed
  }

  /** Commands are matched exactly here. */
  ghost function RequestAnswer(g: Setting, command: string, yaml: string, was: Maps): Response {
    if command == "apply_policy" then ApplyAnswer(g, yaml, was)
    else if command == "get_status" || command == "dump_maps" then Status(was.gen)
    else UnknownCommand
  }

  ghost function Answer(g: Setting, c: Connection, was: Maps): Response {
    match c.message
    case EndOfInput => NoReply
    case BadJson => BadRequest
    case Request(command, yaml) =>
      if Permitted(RoleIn(g.roster, c.peer), command) then RequestAnswer(g, command, yaml, was) else Forbidden
  }

  /** The same over the source rules: the text parses to an accepted policy whose texts and paths can all
      be staged, with room for it beside the active one, and no write fails. */
  lemma WouldApplyExactly(g: Setting, yaml: string, was: Maps, k: Plane)
    requires InStep(k, was.gen, was.entries)
    ensures WouldApply(g, yaml, was)
       <==> && g.parseYaml(yaml).Some?
            && var p := g.parseYaml(yaml).value;
               && Policies.Accepted(g.world, p) && AllStageable(g.world, p.rules)
               && RoomForBoth(GenView(was.entries, was.gen), PolicyImage(g.world, p))
               && NoFailure(g.fails, was.writes, ItemCount(CompiledForm(p)) + 1)
  {
    if g.parseYaml(yaml).Some? {
      AppliedExactly(k, was.gen, was.entries, g.world, g.parseYaml(yaml).value, g.fails, was.writes);
    }
  }

  /** An accepted policy with an unstageable text is always rolled back. */
  lemma AcceptedThenRolledBack(g: Setting, text: string, yaml: string, was: Maps, k: Plane) returns (pol: Policy)
    requires InStep(k, was.gen, was.entries) && g.world.parseCidr(text) == Unstageable
    ensures Policies.Accepted(g.world, pol) && |pol.rules| == 1 && pol.rules[0].srcCidrs == [text]
    ensures g.parseYaml(yaml) == Some(pol) ==> ApplyAnswer(g, yaml, was) == ApplyFailed
  {
    pol := AcceptedUnstageable(g.world, text);
    WouldApplyExactly(g, yaml, was, k);
  }

  /** Permission ignores case and dispatch does not: of the permitted commands exactly those already in
      lower case are known. */
  lemma DispatchedIffLower(g: Setting, role: Role, command: string, yaml: string, was: Maps)
    requires Permitted(role, command)
    ensures RequestAnswer(g, command, yaml, was) != UnknownCommand <==> ToLower(command) == command
  {
    CommandsAreLower();
  }

  lemma CommandsAreLower()
    ensures ToLower("apply_policy") == "apply_policy"
    ensures ToLower("get_status") == "get_status" && ToLower("dump_maps") == "dump_maps"
  {
  }

  /** So whoever may apply a policy may also shout it, and is told the command is unknown. */
  lemma ShoutedApplyUnknown(g: Setting, peer: Option<Peer>, yaml: string, was: Maps)
    requires RoleIn(g.roster, peer) != Viewer
    ensures Permitted(RoleIn(g.roster, peer), "APPLY_POLICY")
    ensures Answer(g, Connection(peer, Request("APPLY_POLICY", yaml)), was) == UnknownCommand
  {
    assert ToLower("APPLY_POLICY") == "apply_policy";
    assert "APPLY_POLICY"[0] != "apply_policy"[0];
    assert "APPLY_POLICY"[0] != "get_status"[0];
    assert "APPLY_POLICY"[0] != "dump_maps"[0];
  }

  /** Answers over user and group IDs: an answer of success goes to a caller in one of the four sets. */
  lemma AppliedToListedCaller(g: Setting, c: Connection, was: Maps)
    requires Answer(g, c, was).Applied?
    ensures c.peer.Some? && c.message.Request? && c.message.command == "apply_policy"
    ensures var p := c.peer.value;
            || p.uid in g.roster.adminUids || p.uid in g.roster.operatorUids
            || p.gid in g.roster.adminGids || p.gid in g.roster.operatorGids
  {
    CommandsAreLower();
    if c.peer.Some? {
      RolesSpelledOut(g.roster, c.peer.value.uid, c.peer.value.gid);
    }
  }

  /** The other answers: nothing to silence, an error to bad JSON, refusal to an unknown command, and the
      generation to a request for status or dump from anybody. */
  lemma OtherAnswersSpelledOut(g: Setting, c: Connection, was: Maps)
    ensures c.message.EndOfInput? ==> Answer(g, c, was) == NoReply
    ensures c.message.BadJson? ==> Answer(g, c, was) == BadRequest
    ensures c.message.Request? ==>
              var command := c.message.command;
              && (command == "get_status" || command == "dump_maps" ==> Answer(g, c, was) == Status(was.gen))
              && (ToLower(command) !in {"apply_policy", "get_status", "dump_maps"} ==> Answer(g, c, was) == Forbidden)
  {
    CommandsAreLower();
    assert "apply_policy"[0] != "get_status"[0] && "apply_policy"[0] != "dump_maps"[0];
  }

  /** A success is answered with the new generation and the number of staged items. */
  lemma SuccessSpelledOut(g: Setting, c: Connection, resp: Response, was: Maps, now: Maps)
    requires ServedOne(g, c, resp, was, now) && resp.Applied?
    ensures resp.gen == now.gen == Next(was.gen)
    ensures g.parseYaml(c.message.yaml).Some? && resp.rules == CallsOfAll(g.parseYaml(c.message.yaml).value.rules)
  {
    ItemsCounted(g.parseYaml(c.message.yaml).value);
  }

  /** A fresh server: root, root's group and sudo's apply policies and nobody else does; everybody may see
      the status. */
  lemma FreshServer(g: Setting, uid: U32, gid: U32, yaml: string, was: Maps)
    requires g.roster == Roster({0}, {}, {0, 27}, {})
    ensures var peer := Some(Peer(uid, gid));
            && Answer(g, Connection(peer, Request("apply_policy", yaml)), was)
               == (if uid == 0 || gid == 0 || gid == 27 then ApplyAnswer(g, yaml, was) else Forbidden)
            && Answer(g, Connection(peer, Request("get_status", yaml)), was) == Status(was.gen)
            && Answer(g, Connection(None, Request("apply_policy", yaml)), was) == Forbidden
  {
    CommandsAreLower();
    PermissionsSpelledOut("apply_policy");
    PermissionsSpelledOut("get_status");
    RolesSpelledOut(g.roster, uid, gid);
    assert "apply_policy"[0] != "get_status"[0] && "apply_policy"[0] != "dump_maps"[0];
  }

  /** What answering one connection may do to the maps. */
  ghost predicate ServedOne(g: Setting, c: Connection, resp: Response, was: Maps, now: Maps) {
    && resp == Answer(g, c, was)
    && if resp.Applied? then
         && MayApply(g.roster, c) && InForce(g.world, g.parseYaml(c.message.yaml), was, now)
         && resp.gen == now.gen
       else now.gen == was.gen && now.entries == was.entries
  }

  lemma RequestServed(g: Setting, c: Connection, resp: Response, was: Maps, now: Maps)
    requires c.message.Request? && Permitted(RoleIn(g.roster, c.peer), c.message.command)
    requires resp == RequestAnswer(g, c.message.command, c.message.yaml, was)
    requires resp.Applied? ==> c.message.command == "apply_policy"
    requires resp.Applied? ==> InForce(g.world, g.parseYaml(c.message.yaml), was, now)
    requires !resp.Applied? ==> now.gen == was.gen && now.entries == was.entries
    ensures ServedOne(g, c, resp, was, now)
    ensures resp.Applied? ==> MayApply(g.roster, c)
  {
    CommandsAreLower();
  }

  /** `ServedOne` in a fixed setting, as a relation. */
  ghost function Serving(g: Setting): (Connection, Response, Maps, Maps) -> bool {
    (c: Connection, resp: Response, was: Maps, now: Maps) => ServedOne(g, c, resp, was, now)
  }

  /** A whole run: where the maps were, how each connection was answered, where they are now. `maps`
      holds the maps before each connection and after the last. */
  ghost predicate Run(rel: (Connection, Response, Maps, Maps) -> bool,
                      conns: seq<Connection>, resps: seq<Response>, maps: seq<Maps>, was: Maps, now: Maps) {
    && Chain(rel, conns, resps, maps) && maps[0] == was && maps[|conns|] == now
    && now.gen == (was.gen + Successes(resps)) % 0x1_0000_0000
  }

  /** The same over a whole run: every answer of success went to a listed caller's request to apply. */
  lemma RunAppliedToListed(g: Setting, conns: seq<Connection>, resps: seq<Response>, maps: seq<Maps>, was: Maps,
                           now: Maps, i: nat)
    requires Run(Serving(g), conns, resps, maps, was, now) && i < |conns| && resps[i].Applied?
    ensures conns[i].peer.Some? && conns[i].message.Request? && conns[i].message.command == "apply_policy"
    ensures var p := conns[i].peer.value;
            || p.uid in g.roster.adminUids || p.uid in g.roster.operatorUids
            || p.gid in g.roster.adminGids || p.gid in g.roster.operatorGids
  {
    assert Serving(g)(conns[i], resps[i], maps[i], maps[i + 1]);
    AppliedToListedCaller(g, conns[i], maps[i]);
  }

  lemma RunStart(rel: (Connection, Response, Maps, Maps) -> bool, m: Maps)
    ensures Run(rel, [], [], [m], m, m)
  {
  }

  lemma RunMore(rel: (Connection, Response, Maps, Maps) -> bool,
                conns: seq<Connection>, resps: seq<Response>, maps: seq<Maps>, was: Maps, now: Maps,
                c: Connection, resp: Response, next: Maps)
    requires Run(rel, conns, resps, maps, was, now) && rel(c, resp, now, next)
    requires next.gen == if resp.Applied? then Next(now.gen) else now.gen
    ensures Run(rel, conns + [c], resps + [resp], maps + [next], was, next)
  {
    ChainMore(rel, conns, resps, maps, c, resp, next);
    SuccessesMore(resps, resp);
    NextCounts(was.gen + Successes(resps));
  }

  /** One more connection of a longer list. */
  lemma RunFurther(rel: (Connection, Response, Maps, Maps) -> bool, conns: seq<Connection>, i: nat,
                   resps: seq<Response>, maps: seq<Maps>, was: Maps, now: Maps, resp: Response, next: Maps)
    requires i < |conns| && Run(rel, conns[..i], resps, maps, was, now) && rel(conns[i], resp, now, next)
    requires next.gen == if resp.Applied? then Next(now.gen) else now.gen
    ensures Run(rel, conns[..i + 1], resps + [resp], maps + [next], was, next)
  {
    RunMore(rel, conns[..i], resps, maps, was, now, conns[i], resp, next);
    assert conns[..i] + [conns[i]] == conns[..i + 1];
  }

  lemma ServedIsServing(g: Setting, c: Connection, resp: Response, was: Maps, now: Maps)
    requires ServedOne(g, c, resp, was, now)
    ensures Serving(g)(c, resp, was, now)
    ensures now.gen == if resp.Applied? then Next(was.gen) else was.gen
  {
  }

  /** The policy that reaches the swapper, if one does: a text that parses to an accepted policy. */
  ghost function Offered(w: World, parsed: Option<Policy>): seq<Policy> {
    if parsed.Some? && Policies.Accepted(w, parsed.value) then [parsed.value] else []
  }

  ghost function Submitted(g: Setting, c: Connection): seq<Policy> {
    if MayApply(g.roster, c) then Offered(g.world, g.parseYaml(c.message.yaml)) else []
  }

  /** All that some connections submit, in order. */
  ghost function SubmittedAll(g: Setting, conns: seq<Connection>): seq<Policy> {
    if conns == [] then [] else SubmittedAll(g, conns[..|conns| - 1]) + Submitted(g, conns[|conns| - 1])
  }

  /** A whole run together with the policies it submits after the earlier ones. */
  ghost predicate ServedRun(g: Setting, conns: seq<Connection>, resps: seq<Response>, maps: seq<Maps>,
                            was: Maps, now: Maps, earlier: seq<Policy>, asked: seq<Policy>) {
    Run(Serving(g), conns, resps, maps, was, now) && asked == earlier + SubmittedAll(g, conns)
  }

  lemma ServedStart(g: Setting, m: Maps, earlier: seq<Policy>)
    ensures ServedRun(g, [], [], [m], m, m, earlier, earlier)
  {
    RunStart(Serving(g), m);
  }

  lemma ServedFurther(g: Setting, conns: seq<Connection>, i: nat, resps: seq<Response>, maps: seq<Maps>,
                      was: Maps, now: Maps, earlier: seq<Policy>, asked: seq<Policy>, resp: Response, next: Maps)
    requires i < |conns| && ServedRun(g, conns[..i], resps, maps, was, now, earlier, asked)
    requires ServedOne(g, conns[i], resp, now, next)
    ensures ServedRun(g, conns[..i + 1], resps + [resp], maps + [next], was, next,
                      earlier, asked + Submitted(g, conns[i]))
  {
    ServedIsServing(g, conns[i], resp, now, next);
    RunFurther(Serving(g), conns, i, resps, maps, was, now, resp, next);
    SubmittedMore(g, conns, i);
  }

  lemma SubmittedMore(g: Setting, conns: seq<Connection>, i: nat)
    requires i < |conns|
    ensures SubmittedAll(g, conns[..i + 1]) == SubmittedAll(g, conns[..i]) + Submitted(g, conns[i])
  {
    assert conns[..i + 1][..i] == conns[..i];
  }

  class ControlServer {
    const loader: FirewallLoader
    const rbac: RbacEnforcer
    const swapper: MapSwapper
    const parseYaml: string -> Option<Policy>
    /** The protocol state the loader's maps are in. */
    ghost var plane: Plane
    /** The policies handed to the swapper so far. */
    ghost var asked: seq<Policy>

    /** The maps are at rest in a state of the protocol, reached by a run that started exactly the
        applies that were asked for. */
    ghost predicate Valid()
      reads this, loader
    {
      InStep(plane, loader.activeGen, loader.entries) && Logged(loader.world, asked, plane, loader.log)
    }

    /** A loader whose maps are still empty. */
    constructor (loader: FirewallLoader, rbac: RbacEnforcer, parseYaml: string -> Option<Policy>)
      requires loader.activeGen == 0 && loader.entries == map[] && loader.log == []
      ensures Valid() && asked == [] && this.loader == loader && this.rbac == rbac && this.parseYaml == parseYaml
    {
      this.loader, this.rbac, this.parseYaml := loader, rbac, parseYaml;
      swapper := new MapSwapper();
      plane, asked := START, [];
      new;
      StartInv();
      LoggedStart(loader.world);
    }

    ghost function Now(): Maps
      reads loader
    {
      Maps(loader.activeGen, loader.entries, loader.writes)
    }

    ghost function Here(): Setting
      reads rbac
    {
      Setting(loader.world, loader.fails, rbac.Current(), parseYaml)
    }

    ghost predicate Unchanged(was: Maps)
      reads loader
    {
      loader.activeGen == was.gen && loader.entries == was.entries
    }

    /** The swap of an accepted policy's compiled form. */
    method Reload(cp: CompiledPolicy, ghost p: Policy) returns (ok: bool, gen: U32)
      requires Valid() && Policies.Accepted(loader.world, p) && cp == CompiledForm(p)
      modifies this, loader
      ensures Valid() && gen == loader.activeGen && asked == old(asked) + [p]
      ensures ok <==> Succeeds(old(Now()).entries, Next(old(Now()).gen), PolicyOps(loader.world, cp),
                               loader.fails, old(Now()).writes)
      ensures ok ==> InForce(loader.world, Some(p), old(Now()), Now())
      ensures !ok ==> Unchanged(old(Now()))
    {
      ghost var k', issued;
      ok, gen, k', issued := swapper.ApplyPolicyAtomic(loader, cp, plane);
      LoggedMore(loader.world, asked, plane, old(loader.log), p, k', issued);
      plane, asked := k', asked + [p];
    }

    method ApplyPolicy(yaml: string) returns (resp: Response)
      requires Valid()
      modifies this, loader
      ensures Valid() && resp == ApplyAnswer(Here(), yaml, old(Now()))
      ensures asked == old(asked) + Offered(loader.world, parseYaml(yaml))
      ensures resp.Applied? ==> InForce(loader.world, parseYaml(yaml), old(Now()), Now())
      ensures !resp.Applied? ==> Unchanged(old(Now()))
    {
      var parsed := parseYaml(yaml);
      if parsed.None? {
        return ApplyFailed;
      }
      var pol := parsed.value;
      var err := Validate(loader.world, pol);
      if err.Some? {
        return ApplyFailed;
      }
      var cp := Compile(loader.world, pol);
      if cp.None? {
        return ApplyFailed;
      }
      var ok, gen := Reload(cp.value, pol);
      if !ok {
        return ApplyFailed;
      }
      return Applied(gen, |cp.value.cidrs| + |cp.value.cgroups| + |cp.value.ports|);
    }

    method ProcessRequest(command: string, yaml: string) returns (resp: Response)
      requires Valid()
      modifies this, loader
      ensures Valid() && resp == RequestAnswer(Here(), command, yaml, old(Now()))
      ensures asked == old(asked) + if command == "apply_policy" then Offered(loader.world, parseYaml(yaml)) else []
      ensures resp.Applied? ==> command == "apply_policy"
      ensures resp.Applied? ==> InForce(loader.world, parseYaml(yaml), old(Now()), Now())
      ensures !resp.Applied? ==> Unchanged(old(Now()))
    {
      if command == "apply_policy" {
        resp := ApplyPolicy(yaml);
      } else if command == "get_status" || command == "dump_maps" {
        var gen := loader.GetActiveGeneration();
        resp := Status(gen);
      } else {
        resp := UnknownCommand;
      }
    }

    method HandleConnection(c: Connection) returns (resp: Response)
      requires Valid()
      modifies this, loader
      ensures Valid() && ServedOne(Here(), c, resp, old(Now()), Now())
      ensures asked == old(asked) + Submitted(Here(), c)
    {
      var role := rbac.ResolveRole(c.peer);
      match c.message {
        case EndOfInput => resp := NoReply;
        case BadJson => resp := BadRequest;
        case Request(command, yaml) =>
          if !Permitted(role, command) {
            resp := Forbidden;
          } else {
            ghost var was := Now();
            resp := ProcessRequest(command, yaml);
            RequestServed(Here(), c, resp, was, Now());
          }
      }
    }

    /** Serving any sequence of connections: every answer is the one called for; the maps change
        only at an apply request of an admin or operator that is answered with success; each success
        puts its policy in force; the generation advances by exactly the number of successes, modulo
        2^32; and exactly the accepted policies that permitted callers submit reach the swapper, in
        a run of the protocol from empty maps. */
    method Serve(conns: seq<Connection>) returns (resps: seq<Response>, ghost maps: seq<Maps>)
      requires Valid()
      modifies this, loader
      ensures Valid()
      ensures ServedRun(Here(), conns, resps, maps, old(Now()), Now(), old(asked), asked)
    {
      ghost var g, was := Here(), Now();
      resps, maps := [], [Now()];
      ServedStart(g, was, asked);
      for i := 0 to |conns|
        invariant Valid() && g == Here()
        invariant ServedRun(g, conns[..i], resps, maps, was, Now(), old(asked), asked)
      {
        ghost var before, sofar := Now(), asked;
        var resp := HandleConnection(conns[i]);
        ServedFurther(g, conns, i, resps, maps, was, before, old(asked), sofar, resp, Now());
        resps, maps := resps + [resp], maps + [Now()];
      }
      assert conns[..|conns|] == conns;
    }
  }

  function Successes(resps: seq<Response>): nat {
    if resps == [] then 0 else Successes(resps[..|resps| - 1]) + if resps[|resps| - 1].Applied? then 1 else 0
  }

  lemma SuccessesMore(resps: seq<Response>, r: Response)
    ensures Successes(resps + [r]) == Successes(resps) + if r.Applied? then 1 else 0
  {
    assert (resps + [r])[..|resps|] == resps;
  }

  lemma NextCounts(n: nat)
    ensures Next(n % 0x1_0000_0000) == (n + 1) % 0x1_0000_0000
  {
  }
}
