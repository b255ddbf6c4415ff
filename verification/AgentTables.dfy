/** The agent's two stores of services, the live registry and the configuration list,
    and what each command does to them (go-gost/x/socket/service.go).

    A service instance is a handle, numbered in order of registration; `serving` holds the
    handles that were started and not closed since. */
module AgentTables {
  import opened Text
  import opened Settings

  type Handle = nat

  datatype MetaValue = Flag(on: bool) | Other(text: string)
  datatype Metadata = Nil | Entries(entries: map<string, MetaValue>)
  datatype ServiceConfig = ServiceConfig(name: string, addr: string, settings: ServiceSettings, metadata: Metadata)

  datatype Agent = Agent(registry: map<string, Handle>, serving: set<Handle>, next: Handle, services: seq<ServiceConfig>)

  datatype Error =
    | EmptyList | NameRequired | AlreadyExists(name: string) | ParseFailed(name: string)
    | NotFound(name: string) | ConfigNotFound(name: string)

  datatype Outcome = Outcome(error: Option<Error>, agent: Agent)

  // Whether the i-th service of a request is parsed successfully: the parser also binds
  // ports, so its answer is not a function of the configuration.
  type Parses = nat -> bool

  const PAUSED := "paused"
  const EMPTY := Agent(map[], {}, 0, [])

  predicate Paused(c: ServiceConfig) {
    c.metadata.Entries? && PAUSED in c.metadata.entries && c.metadata.entries[PAUSED] == Flag(true)
  }

  function MarkPaused(c: ServiceConfig): (r: ServiceConfig)
    ensures Paused(r) && r.name == c.name
  {
    c.(metadata := Entries((if c.metadata.Nil? then map[] else c.metadata.entries)[PAUSED := Flag(true)]))
  }

  function ClearPaused(c: ServiceConfig): (r: ServiceConfig)
    ensures !Paused(r) && r.name == c.name
  {
    if c.metadata.Nil? then c
    else
      var rest := c.metadata.entries - {PAUSED};
      c.(metadata := if rest == map[] then Nil else Entries(rest))
  }

  // ---- names ----

  function TrimAll(names: seq<string>): (r: seq<string>)
    ensures |r| == |names| && forall i :: 0 <= i < |r| ==> r[i] == Trim(names[i])
  {
    seq(|names|, i requires 0 <= i < |names| => Trim(names[i]))
  }

  function NamesOf(data: seq<ServiceConfig>): (r: seq<string>)
    ensures |r| == |data| && forall i :: 0 <= i < |r| ==> r[i] == data[i].name
  {
    seq(|data|, i requires 0 <= i < |data| => data[i].name)
  }

  // The configurations with their names trimmed, as they are stored.
  function Stored(data: seq<ServiceConfig>): (r: seq<ServiceConfig>)
    ensures |r| == |data| && forall i :: 0 <= i < |r| ==> r[i] == data[i].(name := Trim(data[i].name))
  {
    seq(|data|, i requires 0 <= i < |data| => data[i].(name := Trim(data[i].name)))
  }

  // The position of the first configuration with this name, or the length of the list.
  function IndexOf(services: seq<ServiceConfig>, name: string): (k: nat)
    ensures k <= |services|
    ensures k < |services| ==> services[k].name == name
    ensures forall i :: 0 <= i < k ==> services[i].name != name
  {
    if services == [] || services[0].name == name then 0 else 1 + IndexOf(services[1..], name)
  }

  predicate Listed(services: seq<ServiceConfig>, name: string) { IndexOf(services, name) < |services| }

  predicate Distinct(services: seq<ServiceConfig>) {
    forall i, j :: 0 <= i < j < |services| ==> services[i].name != services[j].name
  }

  lemma ListedAt(services: seq<ServiceConfig>, i: nat)
    requires i < |services|
    ensures Listed(services, services[i].name)
    ensures Distinct(services) ==> IndexOf(services, services[i].name) == i
  {
  }

  lemma ListedByName(services: seq<ServiceConfig>, n: string)
    ensures Listed(services, n) <==> n in NamesOf(services)
  {
  }

  // ---- edits of the configuration list ----

  function ReplaceFirst(services: seq<ServiceConfig>, c: ServiceConfig): seq<ServiceConfig> {
    var k := IndexOf(services, c.name);
    if k < |services| then services[k := c] else services
  }

  function MarkFirst(services: seq<ServiceConfig>, name: string): seq<ServiceConfig> {
    var k := IndexOf(services, name);
    if k < |services| then services[k := MarkPaused(services[k])] else services
  }

  function ClearFirst(services: seq<ServiceConfig>, name: string): seq<ServiceConfig> {
    var k := IndexOf(services, name);
    if k < |services| then services[k := ClearPaused(services[k])] else services
  }

  function ReplaceAll(services: seq<ServiceConfig>, data: seq<ServiceConfig>): seq<ServiceConfig> {
    if data == [] then services
    else ReplaceFirst(ReplaceAll(services, data[..|data| - 1]), data[|data| - 1])
  }

  function MarkAll(services: seq<ServiceConfig>, names: seq<string>): seq<ServiceConfig> {
    if names == [] then services
    else MarkFirst(MarkAll(services, names[..|names| - 1]), names[|names| - 1])
  }

  function ClearAll(services: seq<ServiceConfig>, names: seq<string>): seq<ServiceConfig> {
    if names == [] then services
    else ClearFirst(ClearAll(services, names[..|names| - 1]), names[|names| - 1])
  }

  function Without(services: seq<ServiceConfig>, names: seq<string>): seq<ServiceConfig> {
    if services == [] then []
    else
      var init := Without(services[..|services| - 1], names);
      if services[|services| - 1].name in names then init else init + [services[|services| - 1]]
  }

  // ---- edits of the live side; the configuration list is untouched ----

  function CloseName(a: Agent, name: string): Agent {
    if name in a.registry then a.(serving := a.serving - {a.registry[name]}) else a
  }

  function CloseAll(a: Agent, names: seq<string>): Agent {
    if names == [] then a else CloseName(CloseAll(a, names[..|names| - 1]), names[|names| - 1])
  }

  // Unregister closes the instance it removes.
  function Drop(a: Agent, name: string): Agent {
    var closed := CloseName(a, name);
    closed.(registry := closed.registry - {name})
  }

  function DropAll(a: Agent, names: seq<string>): Agent {
    if names == [] then a else Drop(DropAll(a, names[..|names| - 1]), names[|names| - 1])
  }

  // Register a fresh instance under the name and serve it.
  function Launch(a: Agent, name: string): Agent {
    a.(registry := a.registry[name := a.next], serving := a.serving + {a.next}, next := a.next + 1)
  }

  function LaunchAll(a: Agent, names: seq<string>): Agent {
    if names == [] then a else Launch(LaunchAll(a, names[..|names| - 1]), names[|names| - 1])
  }

  lemma {:induction false} LaunchAllAt(a: Agent, names: seq<string>, j: nat)
    requires j < |names| && forall i, k :: 0 <= i < k < |names| ==> names[i] != names[k]
    ensures names[j] in LaunchAll(a, names).registry && LaunchAll(a, names).registry[names[j]] == a.next + j
  {
    var k := |names| - 1;
    LaunchAllNext(a, names[..k]);
    if j < k { LaunchAllAt(a, names[..k], j); }
  }

  lemma {:induction false} LaunchAllNext(a: Agent, names: seq<string>)
    ensures LaunchAll(a, names).next == a.next + |names| && LaunchAll(a, names).services == a.services
    ensures forall n :: n in LaunchAll(a, names).registry <==> n in a.registry || n in names
    ensures forall n :: n in a.registry && n !in names ==> LaunchAll(a, names).registry[n] == a.registry[n]
  {
    if names != [] {
      LaunchAllNext(a, names[..|names| - 1]);
      assert names == names[..|names| - 1] + [names[|names| - 1]];
    }
  }

  lemma {:induction false} LaunchAllServing(a: Agent, names: seq<string>, h: Handle)
    ensures h in LaunchAll(a, names).serving <==> h in a.serving || a.next <= h < a.next + |names|
  {
    if names != [] {
      LaunchAllServing(a, names[..|names| - 1], h);
      LaunchAllNext(a, names[..|names| - 1]);
    }
  }

  // ---- the commands ----

  // First-phase refusals of a request: the earliest name that is blank, or whose presence
  // in the registry is not the wanted one.
  function Refusal(registry: map<string, Handle>, names: seq<string>, wanted: bool, parses: Parses, i: nat): Option<Error>
    decreases |names| - i
  {
    if i >= |names| then None
    else if names[i] == "" then Some(NameRequired)
    else if wanted && names[i] !in registry then Some(NotFound(names[i]))
    else if !wanted && names[i] in registry then Some(AlreadyExists(names[i]))
    else if !parses(i) then Some(ParseFailed(names[i]))
    else Refusal(registry, names, wanted, parses, i + 1)
  }

  function Always(b: bool): (p: Parses)
    ensures forall i: nat :: p(i) == b
  {
    (i: nat) => b
  }

  const ALL_PARSE: Parses := Always(true)

  // The first position whose name already occurred, or the length of the list.
  function FirstRepeat(names: seq<string>, i: nat): (k: nat)
    requires i <= |names|
    requires forall j, l :: 0 <= j < l < i ==> names[j] != names[l]
    ensures i <= k <= |names|
    ensures forall j, l :: 0 <= j < l < k ==> names[j] != names[l]
    ensures k < |names| ==> names[k] in names[..k]
    decreases |names| - i
  {
    if i == |names| then i
    else if names[i] in names[..i] then i
    else FirstRepeat(names, i + 1)
  }

  function Create(a: Agent, data: seq<ServiceConfig>, parses: Parses): Outcome {
    var names := TrimAll(NamesOf(data));
    if data == [] then Outcome(Some(EmptyList), a)
    else
      var refused := Refusal(a.registry, names, false, parses, 0);
      if refused.Some? then Outcome(refused, a)
      else
        var k := FirstRepeat(names, 0);
        if k < |names| then Outcome(Some(AlreadyExists(names[k])), a.(next := a.next + k))
        else Outcome(None, LaunchAll(a, names).(services := a.services + Stored(data)))
  }

  lemma CreateIs(a: Agent, data: seq<ServiceConfig>, parses: Parses)
    ensures var r := Create(a, data, parses);
            if r.error.None? then r.agent == LaunchAll(a, TrimAll(NamesOf(data))).(services := a.services + Stored(data))
            else r.agent == a.(next := r.agent.next) && r.agent.next >= a.next
  {
  }

  // updateServices, second phase: each service is closed and dropped before its new
  // configuration is parsed.
  function Restart(a: Agent, names: seq<string>, parses: Parses, i: nat): Outcome
    decreases |names| - i
  {
    if i >= |names| then Outcome(None, a)
    else if !parses(i) then Outcome(Some(ParseFailed(names[i])), Drop(a, names[i]))
    else Restart(Launch(Drop(a, names[i]), names[i]), names, parses, i + 1)
  }

  // The configuration list is searched with the names as sent, not trimmed.
  function Update(a: Agent, data: seq<ServiceConfig>, parses: Parses): Outcome {
    var names := TrimAll(NamesOf(data));
    if data == [] then Outcome(Some(EmptyList), a)
    else
      var refused := Refusal(a.registry, names, true, ALL_PARSE, 0);
      if refused.Some? then Outcome(refused, a)
      else
        var done := Restart(a, names, parses, 0);
        if done.error.Some? then done
        else Outcome(None, done.agent.(services := ReplaceAll(a.services, data)))
  }

  function SyncOne(a: Agent, c: ServiceConfig, parses: bool): Outcome {
    var name := Trim(c.name);
    if name == "" then Outcome(Some(NameRequired), a)
    else if name in a.registry then Update(a, [c.(name := name)], Always(parses))
    else Create(a, [c.(name := name)], Always(parses))
  }

  function SyncFrom(a: Agent, data: seq<ServiceConfig>, parses: Parses, i: nat): Outcome
    decreases |data| - i
  {
    if i >= |data| then Outcome(None, a)
    else
      var one := SyncOne(a, data[i], parses(i));
      if one.error.Some? then one else SyncFrom(one.agent, data, parses, i + 1)
  }

  function Sync(a: Agent, data: seq<ServiceConfig>, parses: Parses): Outcome {
    if data == [] then Outcome(Some(EmptyList), a) else SyncFrom(a, data, parses, 0)
  }

  function Delete(a: Agent, services: seq<string>): Outcome {
    var names := TrimAll(services);
    if services == [] then Outcome(Some(EmptyList), a)
    else
      var refused := Refusal(a.registry, names, true, ALL_PARSE, 0);
      if refused.Some? then Outcome(refused, a)
      else Outcome(None, DropAll(a, names).(services := Without(a.services, names)))
  }

  // The first position whose name has no configuration, or the length of the list.
  function FirstUnlisted(services: seq<ServiceConfig>, names: seq<string>, i: nat): (k: nat)
    requires i <= |names|
    ensures i <= k <= |names|
    ensures k < |names| ==> !Listed(services, names[k])
    ensures forall j :: i <= j < k ==> Listed(services, names[j])
    decreases |names| - i
  {
    if i == |names| then i
    else if !Listed(services, names[i]) then i
    else FirstUnlisted(services, names, i + 1)
  }

  // rollbackPausedServices finds every name still registered, so it launches nothing.
  function Pause(a: Agent, services: seq<string>): Outcome {
    var names := TrimAll(services);
    if services == [] then Outcome(Some(EmptyList), a)
    else
      var refused := Refusal(a.registry, names, true, ALL_PARSE, 0);
      if refused.Some? then Outcome(refused, a)
      else
        var k := FirstUnlisted(a.services, names, 0);
        if k < |names| then Outcome(Some(ConfigNotFound(names[k])), CloseAll(a, names[..k]))
        else Outcome(None, CloseAll(a, names).(services := MarkAll(a.services, names)))
  }

  // resumeServices, first phase.
  function ResumeRefusal(a: Agent, names: seq<string>, i: nat): Option<Error>
    decreases |names| - i
  {
    if i >= |names| then None
    else if names[i] == "" then Some(NameRequired)
    else if names[i] !in a.registry then Some(NotFound(names[i]))
    else if !Listed(a.services, names[i]) then Some(ConfigNotFound(names[i]))
    else ResumeRefusal(a, names, i + 1)
  }

  // The names, in order, whose configuration is marked as paused.
  function PausedNames(services: seq<ServiceConfig>, names: seq<string>): seq<string> {
    if names == [] then []
    else
      var init := PausedNames(services, names[..|names| - 1]);
      var last := names[|names| - 1];
      if Listed(services, last) && Paused(services[IndexOf(services, last)]) then init + [last] else init
  }

  // The instance seen in the first phase is closed again although the name may carry a
  // newer one by now; then the name is dropped.
  function DropSeen(a: Agent, seen: map<string, Handle>, name: string): Agent {
    Drop(a.(serving := if name in seen then a.serving - {seen[name]} else a.serving), name)
  }

  // resumeServices, second phase.
  function Relaunch(a: Agent, seen: map<string, Handle>, names: seq<string>, parses: Parses, i: nat): Outcome
    decreases |names| - i
  {
    if i >= |names| then Outcome(None, a)
    else
      var dropped := DropSeen(a, seen, names[i]);
      if !parses(i) then
        Outcome(Some(ParseFailed(names[i])), CloseAll(dropped, names[..i]).(services := MarkAll(a.services, names[..i])))
      else Relaunch(Launch(dropped, names[i]), seen, names, parses, i + 1)
  }

  function Resume(a: Agent, services: seq<string>, parses: Parses): Outcome {
    var names := TrimAll(services);
    if services == [] then Outcome(Some(EmptyList), a)
    else
      var refused := ResumeRefusal(a, names, 0);
      if refused.Some? then Outcome(refused, a)
      else
        var todo := PausedNames(a.services, names);
        var done := Relaunch(a, a.registry, todo, parses, 0);
        if done.error.Some? then done
        else Outcome(None, done.agent.(services := ClearAll(a.services, todo)))
  }

  // What serves was registered at some time.
  predicate OnlyMadeServe(a: Agent) { forall h :: h in a.serving ==> h < a.next }

  // ---- what the two stores keep together ----

  // The registry gives distinct names distinct instances, and nothing serves outside it.
  ghost predicate LiveSide(a: Agent) {
    && (forall n :: n in a.registry ==> n != "" && a.registry[n] < a.next)
    && (forall m, n :: m in a.registry && n in a.registry && a.registry[m] == a.registry[n] ==> m == n)
    && (forall h :: h in a.serving ==> exists n :: n in a.registry && a.registry[n] == h)
  }

  predicate Serves(a: Agent, n: string) { n in a.registry && a.registry[n] in a.serving }

  ghost predicate SameNamesInBoth(a: Agent) {
    Distinct(a.services) && forall n :: n in a.registry <==> n in NamesOf(a.services)
  }

  ghost predicate FlagsMatch(a: Agent) {
    forall i :: 0 <= i < |a.services| ==> (Serves(a, a.services[i].name) <==> !Paused(a.services[i]))
  }

  // Names are distinct and the same in both stores, and a service serves exactly when its
  // configuration is not marked as paused.
  ghost predicate Agree(a: Agent) {
    LiveSide(a) && SameNamesInBoth(a) && FlagsMatch(a)
  }

  // The configuration stored under a name.
  function ConfigOf(services: seq<ServiceConfig>, n: string): Option<ServiceConfig> {
    if Listed(services, n) then Some(services[IndexOf(services, n)]) else None
  }
}
