/** The panel's tables and its requests as atomic steps on them: nodes, tunnels, forwards,
    users and permissions (ForwardOperations, FlowOperations, RelayForgeApi). */
module PanelTables {
  import opened Text
  import opened PortPool
  import opened Protocol

  datatype NodeRow = NodeRow(portRange: string, portStart: int, portEnd: int)

  // oneWay: the flow column is 1 and only inbound bytes count. tenths: traffic_ratio, a
  // decimal with one place, times ten.
  datatype TunnelRow = TunnelRow(kind: Kind, inNode: nat, outNode: nat, oneWay: bool, limitGb: int, tenths: int, enabled: bool)

  datatype ForwardRow = ForwardRow(owner: nat, tunnel: nat, name: string, remote: string, inPort: int, outPort: Option<int>,
                                   limitGb: int, inFlow: int, outFlow: int, status: int)

  datatype UserRow = UserRow(admin: bool, inFlow: int, outFlow: int)
  datatype PermissionRow = PermissionRow(owner: nat, tunnel: nat, enabled: bool, inFlow: int, outFlow: int)

  // Identifiers are assigned by the database, ascending from one and never reused.
  datatype Tables = Tables(
    nodes: map<nat, NodeRow>, tunnels: map<nat, TunnelRow>, forwards: map<nat, ForwardRow>,
    users: map<nat, UserRow>, permissions: map<nat, PermissionRow>,
    nextNode: nat, nextTunnel: nat, nextForward: nat, nextUser: nat, nextPermission: nat)

  // Empty but for the first administrator.
  const NEW := Tables(map[], map[], map[], map[1 := UserRow(true, 0, 0)], map[], 1, 1, 1, 2, 1)

  const PAUSED: int := 0
  const RUNNING: int := 1
  const EXHAUSTED: int := 2

  // ---- ports ----

  // What a forward occupies on a node: its entry port on the entry node, its relay port
  // where the relay of its kind of tunnel listens.
  function PortsOf(db: Tables, id: nat, node: nat): set<int> {
    if id !in db.forwards || db.forwards[id].tunnel !in db.tunnels then {}
    else OccupiedBy(db.forwards[id], db.tunnels[db.forwards[id].tunnel], node)
  }

  function OccupiedBy(f: ForwardRow, t: TunnelRow, node: nat): set<int> {
    (if t.inNode == node then {f.inPort} else {})
    + (if f.outPort.Some? && ((t.kind.Relay? && t.outNode == node) || (t.kind.Reverse? && t.inNode == node)) then {f.outPort.value} else {})
  }

  predicate Holds(db: Tables, id: nat, node: nat, port: int) { port in PortsOf(db, id, node) }

  // UsedPortsAsync.
  function UsedPorts(db: Tables, node: nat, exclude: Option<nat>): (ports: set<int>)
    ensures forall p :: p in ports <==> exists id :: id in db.forwards && exclude != Some(id) && p in PortsOf(db, id, node)
  {
    set id, p | id in db.forwards && exclude != Some(id) && p in PortsOf(db, id, node) :: p
  }

  function FirstUnused(pool: seq<int>, used: set<int>): int {
    if pool == [] then 0 else if pool[0] !in used then pool[0] else FirstUnused(pool[1..], used)
  }

  // NextPort on a node of the tables; a missing node has no pool.
  function NextPortOn(db: Tables, node: nat, reserved: Option<int>): int {
    var n := if node in db.nodes then db.nodes[node] else NodeRow("", 0, 0);
    var ranges := Ranges(n.portRange, n.portStart, n.portEnd);
    if ranges.None? then 0 else FirstUnused(Ports(ranges.value), Reserve(UsedPorts(db, node, None), reserved))
  }

  // ---- usage and limits ----

  const GIGABYTE := 1024 * 1024 * 1024

  // FlowOperations.ToBytes saturates at the largest 64-bit value.
  function ToBytes(gigabytes: int): int {
    if gigabytes <= 0 then 0 else if gigabytes > LONG_MAX / GIGABYTE then LONG_MAX else gigabytes * GIGABYTE
  }

  function Usage(f: ForwardRow, oneWay: bool): int { if oneWay then f.inFlow else f.inFlow + f.outFlow }

  function UsageBelow(forwards: map<nat, ForwardRow>, tunnel: nat, oneWay: bool, n: nat): int {
    if n == 0 then 0
    else UsageBelow(forwards, tunnel, oneWay, n - 1)
         + (if n - 1 in forwards && forwards[n - 1].tunnel == tunnel then Usage(forwards[n - 1], oneWay) else 0)
  }

  // TunnelUsageAsync: the sum over the tunnel's forwards.
  function TunnelUsage(db: Tables, tunnel: nat): int {
    if tunnel in db.tunnels then UsageBelow(db.forwards, tunnel, db.tunnels[tunnel].oneWay, db.nextForward) else 0
  }

  predicate Reached(usage: int, limitGb: int) { ToBytes(limitGb) > 0 && usage >= ToBytes(limitGb) }

  predicate OwnQuotaReached(db: Tables, id: nat) {
    && id in db.forwards && db.forwards[id].tunnel in db.tunnels
    && Reached(Usage(db.forwards[id], db.tunnels[db.forwards[id].tunnel].oneWay), db.forwards[id].limitGb)
  }

  predicate TunnelQuotaReached(db: Tables, tunnel: nat) {
    tunnel in db.tunnels && Reached(TunnelUsage(db, tunnel), db.tunnels[tunnel].limitGb)
  }

  predicate Exceeded(db: Tables, id: nat) {
    id in db.forwards && (OwnQuotaReached(db, id) || TunnelQuotaReached(db, db.forwards[id].tunnel))
  }

  // Math.Round(bytes * ratio, AwayFromZero), never negative.
  function Scale(bytes: int, tenths: int): nat {
    var scaled := bytes * tenths;
    if scaled <= 0 then 0 else (scaled + 5) / 10
  }

  // ---- requests ----

  datatype CreateRequest = CreateRequest(name: string, remote: string, tunnel: nat, user: Option<nat>, inPort: Option<int>, outPort: Option<int>, limitGb: int)
  datatype Caller = Caller(id: nat, admin: bool)

  datatype Refusal =
    | BlankName | NoTunnel | TunnelDisabled | QuotaExhausted | NoPermission | BadPort | NoPool | EntryPortTaken
    | SamePorts | RelayPortTaken | NegativeLimit | NodeFailed | NoForward | InUse | NoNode | BadSettings | Duplicate | SyncFailed

  datatype Result = Done(id: nat) | Existing(id: nat) | Refused(why: Refusal)
  datatype Stepped = Stepped(result: Result, db: Tables)

  predicate ValidPort(p: Option<int>) { p.Some? ==> 1 <= p.value <= 65535 }

  predicate MayUse(db: Tables, owner: nat, tunnel: nat) {
    exists p :: p in db.permissions && db.permissions[p].owner == owner && db.permissions[p].tunnel == tunnel && db.permissions[p].enabled
  }

  predicate SameConfig(f: ForwardRow, owner: nat, r: CreateRequest) {
    f.owner == owner && f.tunnel == r.tunnel && f.name == Trim(r.name) && f.remote == Trim(r.remote)
  }

  // The first forward, from identifier i on, with the same owner, tunnel, name and target.
  function Twin(db: Tables, owner: nat, r: CreateRequest, i: nat): (id: Option<nat>)
    ensures id.Some? ==> id.value in db.forwards && SameConfig(db.forwards[id.value], owner, r)
    ensures id.None? ==> forall k :: i <= k < db.nextForward && k in db.forwards ==> !SameConfig(db.forwards[k], owner, r)
    decreases db.nextForward - i
  {
    if i >= db.nextForward then None
    else if i in db.forwards && SameConfig(db.forwards[i], owner, r) then Some(i)
    else Twin(db, owner, r, i + 1)
  }

  function EntryPort(db: Tables, t: TunnelRow, r: CreateRequest): int {
    if r.inPort.Some? then r.inPort.value else NextPortOn(db, t.inNode, None)
  }

  // None on a direct tunnel; zero when a pool had to be asked and had nothing.
  function RelayPort(db: Tables, t: TunnelRow, r: CreateRequest, entry: int): Option<int> {
    match t.kind
    case Direct => None
    case Relay =>
      if r.outPort.Some? then r.outPort else if r.inPort.Some? then r.inPort
      else Some(NextPortOn(db, t.outNode, if t.inNode == t.outNode then Some(entry) else None))
    case Reverse =>
      if r.outPort.Some? then r.outPort else Some(NextPortOn(db, t.inNode, Some(entry)))
  }

  function RelayNode(t: TunnelRow): nat { if t.kind.Relay? then t.outNode else t.inNode }

  // The checks of CreateAsync before the row is inserted, in their order.
  function CreateRefusal(db: Tables, r: CreateRequest, caller: Caller, owner: nat): Option<Refusal> {
    if Trim(r.name) == "" || Trim(r.remote) == "" then Some(BlankName)
    else if r.tunnel !in db.tunnels then Some(NoTunnel)
    else if !db.tunnels[r.tunnel].enabled then Some(TunnelDisabled)
    else if TunnelQuotaReached(db, r.tunnel) then Some(QuotaExhausted)
    else if !caller.admin && !MayUse(db, owner, r.tunnel) then Some(NoPermission)
    else None
  }

  function PortRefusal(db: Tables, r: CreateRequest): (why: Option<Refusal>)
    requires r.tunnel in db.tunnels
    ensures why != Some(NodeFailed)
  {
    var t := db.tunnels[r.tunnel];
    if !ValidPort(r.inPort) || !ValidPort(r.outPort) then Some(BadPort)
    else
      var entry := EntryPort(db, t, r);
      if entry <= 0 then Some(NoPool)
      else if entry in UsedPorts(db, t.inNode, None) then Some(EntryPortTaken)
      else
        var relay := RelayPort(db, t, r, entry);
        if relay == Some(0) then Some(NoPool)
        else if relay == Some(entry) && RelayNode(t) == t.inNode then Some(SamePorts)
        else if relay.Some? && relay.value > 0 && relay.value in UsedPorts(db, RelayNode(t), None) then Some(RelayPortTaken)
        else if r.limitGb < 0 then Some(NegativeLimit)
        else None
  }

  function Owner(r: CreateRequest, caller: Caller): nat {
    if caller.admin && r.user.Some? && r.user.value > 0 then r.user.value else caller.id
  }

  function NewForward(db: Tables, r: CreateRequest, owner: nat): ForwardRow
    requires r.tunnel in db.tunnels
  {
    var t := db.tunnels[r.tunnel];
    var entry := EntryPort(db, t, r);
    ForwardRow(owner, r.tunnel, Trim(r.name), Trim(r.remote), entry, RelayPort(db, t, r, entry), r.limitGb, 0, 0, RUNNING)
  }

  // CreateAsync. `provisioned`: every node command succeeded; otherwise the row inserted
  // before the commands is deleted again.
  function CreateForward(db: Tables, r: CreateRequest, caller: Caller, provisioned: bool): Stepped {
    var owner := Owner(r, caller);
    var early := CreateRefusal(db, r, caller, owner);
    if early.Some? then Stepped(Refused(early.value), db)
    else if r.inPort.None? && Twin(db, owner, r, 0).Some? then Stepped(Existing(Twin(db, owner, r, 0).value), db)
    else
      var late := PortRefusal(db, r);
      if late.Some? then Stepped(Refused(late.value), db)
      else
        var inserted := db.(forwards := db.forwards[db.nextForward := NewForward(db, r, owner)], nextForward := db.nextForward + 1);
        if provisioned then Stepped(Done(db.nextForward), inserted)
        else Stepped(Refused(NodeFailed), inserted.(forwards := inserted.forwards - {db.nextForward}))
  }

  datatype UpdateRequest = UpdateRequest(id: nat, name: string, remote: string, inPort: Option<int>, outPort: Option<int>, limitGb: int)

  function UpdateRefusal(db: Tables, r: UpdateRequest, caller: Caller): Option<Refusal> {
    if r.id !in db.forwards || db.forwards[r.id].tunnel !in db.tunnels then Some(NoForward)
    else if !caller.admin && db.forwards[r.id].owner != caller.id then Some(NoForward)
    else if r.limitGb < 0 then Some(NegativeLimit)
    else
      var f, t := db.forwards[r.id], db.tunnels[db.forwards[r.id].tunnel];
      var inPort := if r.inPort.Some? then r.inPort.value else f.inPort;
      var outPort := if r.outPort.Some? then r.outPort else f.outPort;
      var relayNode := if t.kind.Reverse? then t.inNode else if t.kind.Relay? then t.outNode else 0;
      if inPort < 1 || inPort > 65535 || !ValidPort(r.outPort) then Some(BadPort)
      else if inPort in UsedPorts(db, t.inNode, Some(r.id)) then Some(EntryPortTaken)
      else if outPort.Some? && outPort.value > 0 && relayNode > 0 && outPort.value in UsedPorts(db, relayNode, Some(r.id)) then Some(RelayPortTaken)
      else None
  }

  // Which node commands succeed, by forward.
  type Acks = nat -> bool

  function Edited(f: ForwardRow, r: UpdateRequest): ForwardRow {
    f.(name := r.name, remote := r.remote, inPort := if r.inPort.Some? then r.inPort.value else f.inPort,
       outPort := if r.outPort.Some? then r.outPort else f.outPort, limitGb := r.limitGb)
  }

  // The tables an accepted update writes before it reconciles.
  function SavedForward(db: Tables, r: UpdateRequest): Tables {
    if r.id in db.forwards then db.(forwards := db.forwards[r.id := Edited(db.forwards[r.id], r)]) else db
  }

  function SavedTunnel(db: Tables, id: nat, oneWay: bool, limitGb: int, tenths: int): Tables {
    if id in db.tunnels then db.(tunnels := db.tunnels[id := db.tunnels[id].(oneWay := oneWay, limitGb := limitGb, tenths := tenths)]) else db
  }

  // UpdateAsync: the row, then the reconciliation of its tunnel.
  function UpdateForward(db: Tables, r: UpdateRequest, caller: Caller, acks: Acks): Stepped {
    var refused := UpdateRefusal(db, r, caller);
    if refused.Some? then Stepped(Refused(refused.value), db)
    else Stepped(Done(r.id), Reconcile(SavedForward(db, r), db.forwards[r.id].tunnel, acks))
  }

  function DeleteForward(db: Tables, id: nat, caller: Caller): Stepped {
    if id !in db.forwards || db.forwards[id].tunnel !in db.tunnels || (!caller.admin && db.forwards[id].owner != caller.id) then Stepped(Refused(NoForward), db)
    else Stepped(Done(id), db.(forwards := db.forwards - {id}))
  }

  // ChangeStatusAsync, for administrators: pause (0) or resume (1).
  function ChangeStatus(db: Tables, id: nat, resume: bool, ack: bool): Stepped {
    if id !in db.forwards || db.forwards[id].tunnel !in db.tunnels then Stepped(Refused(NoForward), db)
    else if resume && Exceeded(db, id) then Stepped(Refused(QuotaExhausted), db)
    else if !ack then Stepped(Refused(NodeFailed), db)
    else Stepped(Done(id), db.(forwards := db.forwards[id := db.forwards[id].(status := if resume then RUNNING else PAUSED)]))
  }

  // The row of a forward after the reconciliation of a tunnel.
  function Settled(db: Tables, tunnel: nat, id: nat, ack: bool): ForwardRow
    requires id in db.forwards
  {
    var f := db.forwards[id];
    if f.tunnel != tunnel || !ack then f
    else if Exceeded(db, id) && f.status == RUNNING then f.(status := EXHAUSTED)
    else if !Exceeded(db, id) && f.status == EXHAUSTED then f.(status := RUNNING)
    else f
  }

  // ReconcileTunnelAsync: rows and usage are read once, then each row follows its own reply.
  function Reconcile(db: Tables, tunnel: nat, acks: Acks): Tables {
    if tunnel !in db.tunnels then db
    else db.(forwards := map id | id in db.forwards :: Settled(db, tunnel, id, acks(id)))
  }

  // Identifiers a reconciliation sends a command for.
  predicate Pending(db: Tables, tunnel: nat, id: nat) {
    && tunnel in db.tunnels && id in db.forwards && db.forwards[id].tunnel == tunnel
    && ((Exceeded(db, id) && db.forwards[id].status == RUNNING) || (!Exceeded(db, id) && db.forwards[id].status == EXHAUSTED))
  }

  // ---- traffic reports ----

  // The forward a report is booked on, if the panel accepts it: the forward, its tunnel and
  // its owner exist, and the reporting node is the one that carries its traffic.
  function BookedOn(db: Tables, service: string, node: nat): Option<nat> {
    var id := ReportedForward(service);
    if id.None? || id.value < 0 || id.value !in db.forwards then None
    else
      var f := db.forwards[id.value];
      if f.tunnel !in db.tunnels || f.owner !in db.users then None
      else
        var t := db.tunnels[f.tunnel];
        if node != (if t.kind.Reverse? then t.outNode else t.inNode) then None else Some(id.value)
  }

  // Uploaded bytes are booked as inbound flow, downloaded ones as outbound.
  function Credit(db: Tables, id: nat, up: nat, down: nat): Tables
    requires id in db.forwards
  {
    var f := db.forwards[id];
    db.(forwards := db.forwards[id := f.(inFlow := f.inFlow + up, outFlow := f.outFlow + down)],
        users := map u | u in db.users ::
          if u == f.owner then db.users[u].(inFlow := db.users[u].inFlow + up, outFlow := db.users[u].outFlow + down) else db.users[u],
        permissions := map p | p in db.permissions ::
          if db.permissions[p].owner == f.owner && db.permissions[p].tunnel == f.tunnel
          then db.permissions[p].(inFlow := db.permissions[p].inFlow + up, outFlow := db.permissions[p].outFlow + down) else db.permissions[p])
  }

  function ExhaustTunnel(db: Tables, tunnel: nat): Tables {
    db.(forwards := map id | id in db.forwards ::
      if db.forwards[id].tunnel == tunnel && db.forwards[id].status == RUNNING then db.forwards[id].(status := EXHAUSTED) else db.forwards[id])
  }

  // The pausing half of ApplyAsync; the replies of the nodes are ignored.
  function Enforce(db: Tables, id: nat): Tables
    requires id in db.forwards
  {
    if db.forwards[id].status != RUNNING || !Exceeded(db, id) then db
    else if TunnelQuotaReached(db, db.forwards[id].tunnel) then ExhaustTunnel(db, db.forwards[id].tunnel)
    else db.(forwards := db.forwards[id := db.forwards[id].(status := EXHAUSTED)])
  }

  datatype Report = Report(service: string, up: int, down: int)

  function Booked(db: Tables, r: Report, node: nat): Option<(nat, nat, nat)> {
    var id := BookedOn(db, r.service, node);
    if id.None? then None
    else
      var tenths := db.tunnels[db.forwards[id.value].tunnel].tenths;
      if Scale(r.up, tenths) == 0 && Scale(r.down, tenths) == 0 then None
      else Some((id.value, Scale(r.up, tenths), Scale(r.down, tenths)))
  }

  function ApplyReport(db: Tables, r: Report, node: nat): Tables {
    var b := Booked(db, r, node);
    if b.None? then db else Enforce(Credit(db, b.value.0, b.value.1, b.value.2), b.value.0)
  }

  // ---- the other requests ----

  // A port range that is neither blank nor a list of ranges is turned down.
  predicate BadRange(range: string) { Trim(range) != "" && Ranges(range, 0, 0).None? }

  function CreateNode(db: Tables, range: string): Tables {
    if BadRange(range) then db else db.(nodes := db.nodes[db.nextNode := PoolRow(range)], nextNode := db.nextNode + 1)
  }

  function UpdateNode(db: Tables, id: nat, range: string): Tables {
    if id in db.nodes && !BadRange(range) then db.(nodes := db.nodes[id := PoolRow(range)]) else db
  }

  // A blank range is an empty pool; otherwise the normalized text and its first range.
  function PoolRow(range: string): NodeRow {
    var ranges := if Trim(range) == "" then None else Ranges(range, 0, 0);
    if ranges.None? then NodeRow("", 0, 0)
    else NodeRow(Join(ShowAll(ranges.value), ','), ranges.value[0].start, ranges.value[0].end)
  }

  function DeleteNode(db: Tables, id: nat): Tables {
    if exists t :: t in db.tunnels && (db.tunnels[t].inNode == id || db.tunnels[t].outNode == id) then db
    else db.(nodes := db.nodes - {id})
  }

  function CreateTunnel(db: Tables, kind: Kind, inNode: nat, requestedOut: Option<nat>, oneWay: bool, limitGb: int, tenths: int): Tables {
    var outNode := if kind.Direct? then Some(inNode) else requestedOut;
    if limitGb < 0 || inNode !in db.nodes || outNode.None? || (kind.Relay? && outNode.value == inNode) || outNode.value !in db.nodes then db
    else db.(tunnels := db.tunnels[db.nextTunnel := TunnelRow(kind, inNode, outNode.value, oneWay, limitGb, tenths, true)], nextTunnel := db.nextTunnel + 1)
  }

  // The kind and the nodes of a tunnel never change. `synced`: SyncTunnelAsync succeeded.
  function UpdateTunnel(db: Tables, id: nat, oneWay: bool, limitGb: int, tenths: int, synced: bool, acks: Acks): Tables {
    if limitGb < 0 || id !in db.tunnels then db
    else
      var saved := SavedTunnel(db, id, oneWay, limitGb, tenths);
      if synced then Reconcile(saved, id, acks) else saved
  }

  function DeleteTunnel(db: Tables, id: nat): Tables {
    if (exists f :: f in db.forwards && db.forwards[f].tunnel == id) || (exists p :: p in db.permissions && db.permissions[p].tunnel == id) then db
    else db.(tunnels := db.tunnels - {id})
  }

  function CreateUser(db: Tables): Tables {
    db.(users := db.users[db.nextUser := UserRow(false, 0, 0)], nextUser := db.nextUser + 1)
  }

  // The forwards and permissions go even when the user row, an administrator's, stays.
  function DeleteUser(db: Tables, id: nat): Tables {
    db.(forwards := map f | f in db.forwards && db.forwards[f].owner != id :: db.forwards[f],
        permissions := map p | p in db.permissions && db.permissions[p].owner != id :: db.permissions[p],
        users := if id in db.users && db.users[id].admin then db.users else db.users - {id})
  }

  function ResetUser(db: Tables, id: nat): Tables {
    if id in db.users then db.(users := db.users[id := db.users[id].(inFlow := 0, outFlow := 0)]) else db
  }

  function ResetPermission(db: Tables, id: nat): Tables {
    if id in db.permissions then db.(permissions := db.permissions[id := db.permissions[id].(inFlow := 0, outFlow := 0)]) else db
  }

  function AssignPermission(db: Tables, owner: nat, tunnel: nat): Tables {
    if exists p :: p in db.permissions && db.permissions[p].owner == owner && db.permissions[p].tunnel == tunnel then db
    else db.(permissions := db.permissions[db.nextPermission := PermissionRow(owner, tunnel, true, 0, 0)], nextPermission := db.nextPermission + 1)
  }

  function SetPermission(db: Tables, id: nat, enabled: bool): Tables {
    if id in db.permissions then db.(permissions := db.permissions[id := db.permissions[id].(enabled := enabled)]) else db
  }

  function RemovePermission(db: Tables, id: nat): Tables {
    if id in db.permissions
       && exists f :: f in db.forwards && db.forwards[f].owner == db.permissions[id].owner && db.forwards[f].tunnel == db.permissions[id].tunnel
    then db else db.(permissions := db.permissions - {id})
  }

  // ---- one step ----

  datatype Op =
    | OpCreateForward(create: CreateRequest, caller: Caller, provisioned: bool)
    | OpUpdateForward(update: UpdateRequest, caller: Caller, acks: Acks)
    | OpDeleteForward(id: nat, caller: Caller)
    | OpChangeStatus(id: nat, resume: bool, ack: bool)
    | OpReport(report: Report, node: nat)
    | OpCreateNode(range: string) | OpUpdateNode(id: nat, range: string) | OpDeleteNode(id: nat)
    | OpCreateTunnel(kind: Kind, inNode: nat, outNode: Option<nat>, oneWay: bool, limitGb: int, tenths: int)
    | OpUpdateTunnel(id: nat, oneWay: bool, limitGb: int, tenths: int, synced: bool, acks: Acks)
    | OpDeleteTunnel(id: nat)
    | OpCreateUser | OpDeleteUser(id: nat) | OpResetUser(id: nat)
    | OpAssign(owner: nat, tunnel: nat) | OpSetPermission(id: nat, enabled: bool) | OpRemovePermission(id: nat) | OpResetPermission(id: nat)

  function Step(db: Tables, op: Op): Tables {
    match op
    case OpCreateForward(r, caller, provisioned) => CreateForward(db, r, caller, provisioned).db
    case OpUpdateForward(r, caller, acks) => UpdateForward(db, r, caller, acks).db
    case OpDeleteForward(id, caller) => DeleteForward(db, id, caller).db
    case OpChangeStatus(id, resume, ack) => ChangeStatus(db, id, resume, ack).db
    case OpReport(r, node) => ApplyReport(db, r, node)
    case OpCreateNode(range) => CreateNode(db, range)
    case OpUpdateNode(id, range) => UpdateNode(db, id, range)
    case OpDeleteNode(id) => DeleteNode(db, id)
    case OpCreateTunnel(kind, i, o, oneWay, limitGb, tenths) => CreateTunnel(db, kind, i, o, oneWay, limitGb, tenths)
    case OpUpdateTunnel(id, oneWay, limitGb, tenths, synced, acks) => UpdateTunnel(db, id, oneWay, limitGb, tenths, synced, acks)
    case OpDeleteTunnel(id) => DeleteTunnel(db, id)
    case OpCreateUser => CreateUser(db)
    case OpDeleteUser(id) => DeleteUser(db, id)
    case OpResetUser(id) => ResetUser(db, id)
    case OpAssign(owner, tunnel) => AssignPermission(db, owner, tunnel)
    case OpSetPermission(id, enabled) => SetPermission(db, id, enabled)
    case OpRemovePermission(id) => RemovePermission(db, id)
    case OpResetPermission(id) => ResetPermission(db, id)
  }

  function Run(db: Tables, ops: seq<Op>): Tables {
    if ops == [] then db else Step(Run(db, ops[..|ops| - 1]), ops[|ops| - 1])
  }
}
