/** What each service command does, told by what is registered, what serves and which
    configuration is stored under a name; and which error a refused or broken-off command gives
    (go-gost/x/socket/service.go). */
module AgentEffects {
  import opened Text
  import opened AgentTables
  import opened AgentAgreement
  import opened AgentReplay

  // ---- configurations ----

  function Meta(c: ServiceConfig, key: string): Option<MetaValue> {
    if c.metadata.Entries? && key in c.metadata.entries then Some(c.metadata.entries[key]) else None
  }

  // The configuration with its mark set or removed: nothing else changes, and no empty map of
  // metadata stays behind.
  ghost predicate Remarked(c: ServiceConfig, r: ServiceConfig, paused: bool) {
    && r == c.(metadata := r.metadata) && (r.metadata.Entries? ==> r.metadata.entries != map[])
    && forall key :: Meta(r, key) == if key != "paused" then Meta(c, key) else if paused then Some(Flag(true)) else None
  }

  lemma MarkRemarks(c: ServiceConfig)
    ensures Remarked(c, MarkPaused(c), true)
  {
    assert PAUSED in MarkPaused(c).metadata.entries;
  }

  lemma ClearRemarks(c: ServiceConfig)
    ensures Remarked(c, ClearPaused(c), false)
  {
    if c.metadata.Entries? {
      forall key | key != PAUSED ensures Meta(ClearPaused(c), key) == Meta(c, key) {
        assert key in c.metadata.entries ==> key in c.metadata.entries - {PAUSED};
      }
    }
  }

  lemma ReplacedConfig(s: seq<ServiceConfig>, c: ServiceConfig, n: string)
    ensures ConfigOf(ReplaceFirst(s, c), n) == if n == c.name && ConfigOf(s, n).Some? then Some(c) else ConfigOf(s, n)
  {
    SameNames(s, ReplaceFirst(s, c), n);
  }

  lemma MarkedConfig(s: seq<ServiceConfig>, name: string, n: string)
    ensures ConfigOf(MarkFirst(s, name), n) == if n == name && ConfigOf(s, n).Some? then Some(MarkPaused(ConfigOf(s, n).value)) else ConfigOf(s, n)
  {
    SameNames(s, MarkFirst(s, name), n);
  }

  lemma ClearedConfig(s: seq<ServiceConfig>, name: string, n: string)
    ensures ConfigOf(ClearFirst(s, name), n) == if n == name && ConfigOf(s, n).Some? then Some(ClearPaused(ConfigOf(s, n).value)) else ConfigOf(s, n)
  {
    SameNames(s, ClearFirst(s, name), n);
  }

  lemma {:induction false} MarkedConfigs(s: seq<ServiceConfig>, names: seq<string>, n: string)
    ensures ConfigOf(MarkAll(s, names), n) == if n in names && ConfigOf(s, n).Some? then Some(MarkPaused(ConfigOf(s, n).value)) else ConfigOf(s, n)
  {
    if names != [] {
      var init, last := names[..|names| - 1], names[|names| - 1];
      MarkedConfigs(s, init, n);
      MarkedConfig(MarkAll(s, init), last, n);
      assert names == init + [last];
      if ConfigOf(s, n).Some? { MarkTwice(ConfigOf(s, n).value); }
    }
  }

  lemma {:induction false} ClearedConfigs(s: seq<ServiceConfig>, names: seq<string>, n: string)
    ensures ConfigOf(ClearAll(s, names), n) == if n in names && ConfigOf(s, n).Some? then Some(ClearPaused(ConfigOf(s, n).value)) else ConfigOf(s, n)
  {
    if names != [] {
      var init, last := names[..|names| - 1], names[|names| - 1];
      ClearedConfigs(s, init, n);
      ClearedConfig(ClearAll(s, init), last, n);
      assert names == init + [last];
      if ConfigOf(s, n).Some? { ClearTwice(ConfigOf(s, n).value); }
    }
  }

  // The configuration a request carries last under a name.
  predicate LastUnder(data: seq<ServiceConfig>, n: string, j: nat) {
    j < |data| && data[j].name == n && forall k :: j < k < |data| ==> data[k].name != n
  }

  lemma {:induction false} ReplacedConfigs(s: seq<ServiceConfig>, data: seq<ServiceConfig>, n: string)
    ensures n !in NamesOf(data) ==> ConfigOf(ReplaceAll(s, data), n) == ConfigOf(s, n)
    ensures ConfigOf(ReplaceAll(s, data), n).Some? <==> ConfigOf(s, n).Some?
    ensures forall j: nat :: LastUnder(data, n, j) && ConfigOf(s, n).Some? ==> ConfigOf(ReplaceAll(s, data), n) == Some(data[j])
  {
    if data != [] {
      var init, last := data[..|data| - 1], data[|data| - 1];
      ReplacedConfigs(s, init, n);
      ReplacedConfig(ReplaceAll(s, init), last, n);
      assert NamesOf(data) == NamesOf(init) + [last.name];
      forall j: nat | LastUnder(data, n, j) && ConfigOf(s, n).Some? ensures ConfigOf(ReplaceAll(s, data), n) == Some(data[j]) {
        if j < |init| { assert LastUnder(init, n, j) && data[|init|].name != n; }
      }
    }
  }

  lemma {:induction false} KeptConfigs(s: seq<ServiceConfig>, names: seq<string>, n: string)
    ensures ConfigOf(Without(s, names), n) == if n in names then None else ConfigOf(s, n)
  {
    if s != [] {
      var init, last := s[..|s| - 1], s[|s| - 1];
      KeptConfigs(init, names, n);
      IndexAppend(init, last, n);
      assert s == init + [last];
      if last.name !in names { IndexAppend(Without(init, names), last, n); }
    }
  }

  // ---- refusals ----

  // The position of the first name that a command turns down before it starts.
  predicate FirstBad(registry: map<string, Handle>, names: seq<string>, wanted: bool, parses: Parses, j: nat) {
    && j < |names| && Bad(registry, names, wanted, parses, j)
    && forall k :: 0 <= k < j ==> !Bad(registry, names, wanted, parses, k)
  }

  predicate Bad(registry: map<string, Handle>, names: seq<string>, wanted: bool, parses: Parses, j: nat)
    requires j < |names|
  {
    names[j] == "" || (names[j] in registry) != wanted || !parses(j)
  }

  // The error for it.
  function Complaint(registry: map<string, Handle>, name: string, wanted: bool): Error {
    if name == "" then NameRequired
    else if (name in registry) == wanted then ParseFailed(name)
    else if wanted then NotFound(name) else AlreadyExists(name)
  }

  lemma {:induction false} RefusalIsFirst(registry: map<string, Handle>, names: seq<string>, wanted: bool, parses: Parses, i: nat, j: nat)
    requires i <= |names| && forall k :: 0 <= k < i ==> !Bad(registry, names, wanted, parses, k)
    ensures var e := Refusal(registry, names, wanted, parses, i);
            && (FirstBad(registry, names, wanted, parses, j) ==> e == Some(Complaint(registry, names[j], wanted)))
            && (e.None? <==> forall k :: 0 <= k < |names| ==> !Bad(registry, names, wanted, parses, k))
    decreases |names| - i
  {
    if i < |names| && !Bad(registry, names, wanted, parses, i) { RefusalIsFirst(registry, names, wanted, parses, i + 1, j); }
  }

  // An add, an update, a deletion or a pause that is turned down names the first name at fault.
  lemma RefusedForFirst(a: Agent, data: seq<ServiceConfig>, services: seq<string>, parses: Parses, j: nat)
    ensures FirstBad(a.registry, TrimAll(NamesOf(data)), false, parses, j) ==>
              Create(a, data, parses) == Outcome(Some(Complaint(a.registry, Trim(data[j].name), false)), a)
    ensures FirstBad(a.registry, TrimAll(NamesOf(data)), true, ALL_PARSE, j) ==>
              Update(a, data, parses) == Outcome(Some(Complaint(a.registry, Trim(data[j].name), true)), a)
    ensures FirstBad(a.registry, TrimAll(services), true, ALL_PARSE, j) ==>
              && Delete(a, services) == Outcome(Some(Complaint(a.registry, Trim(services[j]), true)), a)
              && Pause(a, services) == Outcome(Some(Complaint(a.registry, Trim(services[j]), true)), a)
  {
    RefusalIsFirst(a.registry, TrimAll(NamesOf(data)), false, parses, 0, j);
    RefusalIsFirst(a.registry, TrimAll(NamesOf(data)), true, ALL_PARSE, 0, j);
    RefusalIsFirst(a.registry, TrimAll(services), true, ALL_PARSE, 0, j);
  }

  // A name that occurs twice in an add is turned down at its first repetition.
  lemma RefusedForRepeat(a: Agent, data: seq<ServiceConfig>, parses: Parses, k: nat)
    requires var names := TrimAll(NamesOf(data));
             && k < |names| && names[k] in names[..k] && (forall i, j :: 0 <= i < j < k ==> names[i] != names[j])
             && forall j :: 0 <= j < |names| ==> !Bad(a.registry, names, false, parses, j)
    ensures Create(a, data, parses).error == Some(AlreadyExists(Trim(data[k].name)))
  {
    var names := TrimAll(NamesOf(data));
    RefusalIsFirst(a.registry, names, false, parses, 0, 0);
    var i :| 0 <= i < k && names[..k][i] == names[k];
    assert names[i] == names[k];
  }

  // ---- adding and deleting ----

  // A successful add registers and starts what it names, and lists it after the rest.
  lemma AddEffect(a: Agent, data: seq<ServiceConfig>, parses: Parses, n: string)
    requires LiveSide(a) && Create(a, data, parses).error.None?
    ensures var names, b := TrimAll(NamesOf(data)), Create(a, data, parses).agent;
            && (n in b.registry <==> n in a.registry || n in names) && (Serves(b, n) <==> Serves(a, n) || n in names)
            && |b.services| == |a.services| + |data| && b.services[..|a.services|] == a.services
            && forall j :: 0 <= j < |data| ==> b.services[|a.services| + j] == data[j].(name := Trim(data[j].name))
  {
    var names := TrimAll(NamesOf(data));
    CreateIs(a, data, parses);
    AddedOnce(a, data, parses);
    LaunchAllNext(a, names);
    LaunchedServe(a, names, n);
  }

  lemma AddedOnce(a: Agent, data: seq<ServiceConfig>, parses: Parses)
    requires Create(a, data, parses).error.None?
    ensures var names := TrimAll(NamesOf(data)); forall i, k :: 0 <= i < k < |names| ==> names[i] != names[k]
  {
    CreateAllOrNothing(a, data, parses);
  }

  lemma LaunchedServe(a: Agent, names: seq<string>, n: string)
    requires LiveSide(a) && forall i, k :: 0 <= i < k < |names| ==> names[i] != names[k]
    ensures Serves(LaunchAll(a, names), n) <==> Serves(a, n) || n in names
  {
    LaunchAllNext(a, names);
    if n in names {
      var j :| 0 <= j < |names| && names[j] == n;
      LaunchAllAt(a, names, j);
      LaunchAllServing(a, names, a.next + j);
    } else if n in a.registry {
      LaunchAllServing(a, names, a.registry[n]);
    }
  }

  // A successful deletion leaves every name but those it was given as it was.
  lemma DeleteEffect(a: Agent, services: seq<string>, n: string)
    requires LiveSide(a) && Delete(a, services).error.None?
    ensures var names, b := TrimAll(services), Delete(a, services).agent;
            && (n in b.registry <==> n in a.registry && n !in names)
            && (Serves(b, n) <==> Serves(a, n) && n !in names)
            && ConfigOf(b.services, n) == if n in names then None else ConfigOf(a.services, n)
  {
    DropAllLive(a, TrimAll(services));
    KeptConfigs(a.services, TrimAll(services), n);
  }

  // ---- pausing ----

  lemma {:induction false} ClosedServe(a: Agent, names: seq<string>, n: string)
    requires LiveSide(a)
    ensures LiveSide(CloseAll(a, names)) && CloseAll(a, names).registry == a.registry
    ensures Serves(CloseAll(a, names), n) <==> Serves(a, n) && n !in names
  {
    if names != [] {
      var init, last := names[..|names| - 1], names[|names| - 1];
      ClosedServe(a, init, n);
      CloseLive(CloseAll(a, init), last);
      assert names == init + [last];
    }
  }

  // A successful pause stops and marks what it names and nothing else.
  lemma PauseEffect(a: Agent, services: seq<string>, n: string)
    requires LiveSide(a) && Pause(a, services).error.None?
    ensures var names, b := TrimAll(services), Pause(a, services).agent;
            && b.registry == a.registry && (Serves(b, n) <==> Serves(a, n) && n !in names)
            && (n !in names ==> ConfigOf(b.services, n) == ConfigOf(a.services, n))
            && (n in names ==> ConfigOf(a.services, n).Some? && ConfigOf(b.services, n).Some?
                               && Remarked(ConfigOf(a.services, n).value, ConfigOf(b.services, n).value, true))
  {
    var names := TrimAll(services);
    ClosedServe(a, names, n);
    CloseAllFrame(a, names);
    MarkedConfigs(a.services, names, n);
    if ConfigOf(a.services, n).Some? { MarkRemarks(ConfigOf(a.services, n).value); }
  }

  // ---- updating ----

  lemma RestartedServes(a: Agent, n: string)
    requires LiveSide(a) && n in a.registry && n != ""
    ensures var b := Launch(Drop(a, n), n);
            LiveSide(b) && forall m :: (m in b.registry <==> m in a.registry) && (Serves(b, m) <==> Serves(a, m) || m == n)
  {
    DropLive(a, n);
    LaunchLive(Drop(a, n), n);
  }

  lemma RestartNext(a: Agent, names: seq<string>, parses: Parses, i: nat)
    requires i < |names|
    ensures Restart(a, names, parses, i)
            == if parses(i) then Restart(Launch(Drop(a, names[i]), names[i]), names, parses, i + 1) else Outcome(Some(ParseFailed(names[i])), Drop(a, names[i]))
  {
  }

  // What is registered and serves after restarts that end at position k.
  ghost predicate Restarted(a: Agent, b: Agent, names: seq<string>, i: nat, k: nat, n: string)
    requires i <= k <= |names|
  {
    && (n in b.registry <==> n in a.registry && !(k < |names| && n == names[k]))
    && (Serves(b, n) <==> (Serves(a, n) || n in names[i..k]) && !(k < |names| && n == names[k]))
  }

  lemma RestartedOneMore(a: Agent, next: Agent, b: Agent, names: seq<string>, i: nat, k: nat, n: string)
    requires i < k <= |names| && Restarted(next, b, names, i + 1, k, n)
    requires (n in next.registry <==> n in a.registry) && (Serves(next, n) <==> Serves(a, n) || n == names[i])
    ensures Restarted(a, b, names, i, k, n)
  {
    assert names[i..k] == [names[i]] + names[i + 1..k];
  }

  // The restarts up to the first failing parse, if there is one.
  lemma {:induction false} RestartEffect(a: Agent, names: seq<string>, parses: Parses, i: nat, k: nat, n: string)
    requires LiveSide(a) && i <= k <= |names| && (forall j :: i <= j < k ==> parses(j)) && (k < |names| ==> !parses(k))
    requires forall j :: i <= j < |names| ==> names[j] in a.registry && names[j] != ""
    ensures Restart(a, names, parses, i).error == if k < |names| then Some(ParseFailed(names[k])) else None
    ensures Restarted(a, Restart(a, names, parses, i).agent, names, i, k, n)
    decreases |names| - i
  {
    if i < |names| { RestartNext(a, names, parses, i); }
    if i < k {
      var next := Launch(Drop(a, names[i]), names[i]);
      RestartedServes(a, names[i]);
      RestartEffect(next, names, parses, i + 1, k, n);
      RestartedOneMore(a, next, Restart(next, names, parses, i + 1).agent, names, i, k, n);
    } else if k < |names| {
      DropLive(a, names[k]);
    }
  }

  // An update that is not turned down restarts everything it names and stores the last
  // configuration under each name as it was sent; at the first failing parse it breaks off:
  // that service is gone, those before it are restarted, and no configuration is stored.
  lemma UpdateEffect(a: Agent, data: seq<ServiceConfig>, parses: Parses, k: nat, n: string)
    requires LiveSide(a) && data != [] && forall j :: 0 <= j < |data| ==> Trim(data[j].name) != "" && Trim(data[j].name) in a.registry
    requires k <= |data| && (forall j :: 0 <= j < k ==> parses(j)) && (k < |data| ==> !parses(k))
    ensures var names, r := TrimAll(NamesOf(data)), Update(a, data, parses);
            && r.error == (if k < |data| then Some(ParseFailed(names[k])) else None)
            && (n in r.agent.registry <==> n in a.registry && !(k < |data| && n == names[k]))
            && (Serves(r.agent, n) <==> (Serves(a, n) || n in names[..k]) && !(k < |data| && n == names[k]))
            && (k < |data| ==> r.agent.services == a.services)
            && (k == |data| ==>
                  && (ConfigOf(r.agent.services, n).Some? <==> ConfigOf(a.services, n).Some?)
                  && (n !in NamesOf(data) ==> ConfigOf(r.agent.services, n) == ConfigOf(a.services, n))
                  && forall j: nat :: LastUnder(data, n, j) && ConfigOf(a.services, n).Some? ==> ConfigOf(r.agent.services, n) == Some(data[j]))
  {
    var names := TrimAll(NamesOf(data));
    RefusalIsFirst(a.registry, names, true, ALL_PARSE, 0, 0);
    RestartEffect(a, names, parses, 0, k, n);
    RestartFrame(a, names, parses, 0);
    ReplacedConfigs(a.services, data, n);
    assert names[0..k] == names[..k];
  }

  // ---- synchronising ----

  lemma {:induction false} PutAllPrefix(a: Agent, s: seq<ServiceConfig>, t: seq<ServiceConfig>, k: nat)
    requires k <= |s| && k <= |t| && s[..k] == t[..k]
    ensures PutAll(a, s, k) == PutAll(a, t, k)
  {
    if k > 0 {
      assert s[..k][k - 1] == t[..k][k - 1] && s[..k - 1] == s[..k][..k - 1] && t[..k - 1] == t[..k][..k - 1];
      PutAllPrefix(a, s, t, k - 1);
    }
  }

  lemma SyncOneBreaksOff(a: Agent, c: ServiceConfig, n: string)
    requires LiveSide(a)
    ensures var r, x := SyncOne(a, c, false), Trim(c.name);
            && r.error == Some(if x == "" then NameRequired else ParseFailed(x)) && r.agent.services == a.services
            && (n in r.agent.registry <==> n in a.registry && n != x) && (Serves(r.agent, n) <==> Serves(a, n) && n != x)
  {
    var x := Trim(c.name);
    if x != "" {
      TrimIdempotent(c.name);
      var data := [c.(name := x)];
      assert NamesOf(data) == [x] && TrimAll([x]) == [x];
      if x in a.registry {
        RefusalIsFirst(a.registry, [x], true, ALL_PARSE, 0, 0);
        RestartNext(a, [x], Always(false), 0);
        DropLive(a, x);
      } else {
        RefusalIsFirst(a.registry, [x], false, Always(false), 0, 0);
      }
    }
  }

  // A synchronisation that breaks off at an entry, nameless or not parsed, has done the entries
  // before it; the name of the entry is not registered any more, and nothing else is lost.
  lemma FailedSyncEffect(a: Agent, data: seq<ServiceConfig>, parses: Parses, k: nat, n: string)
    requires Matched(a) && k < |data| && (forall j :: 0 <= j < k ==> parses(j) && Trim(data[j].name) != "")
    requires !parses(k) || Trim(data[k].name) == ""
    ensures var b := if k == 0 then a else Sync(a, data[..k], parses).agent;
            var r, x := Sync(a, data, parses), Trim(data[k].name);
            && (k > 0 ==> Sync(a, data[..k], parses).error.None?)
            && r.error == Some(if x == "" then NameRequired else ParseFailed(x)) && r.agent.services == b.services
            && (n in r.agent.registry <==> n in b.registry && n != x) && (Serves(r.agent, n) <==> Serves(b, n) && n != x)
  {
    var stored, b := Stored(data), PutAll(a, Stored(data), k);
    SyncReaches(a, data, parses, k);
    PutAllMatched(a, stored[..k], k);
    PutAllPrefix(a, stored[..k], stored, k);
    SyncOneBreaksOff(b, data[k], n);
    if k > 0 {
      SyncSucceedsExactly(a, data[..k], parses);
      assert Stored(data[..k]) == stored[..k];
    }
    BreaksOffAt(b, data, parses, k);
  }

  lemma BreaksOffAt(b: Agent, data: seq<ServiceConfig>, parses: Parses, k: nat)
    requires LiveSide(b) && k < |data| && (!parses(k) || Trim(data[k].name) == "")
    ensures SyncFrom(b, data, parses, k) == SyncOne(b, data[k], false)
  {
    SyncOneBreaksOff(b, data[k], "");
  }

  // ---- resuming ----

  lemma SeenIsClosed(a: Agent, seen: map<string, Handle>, bound: Handle, n: string)
    requires LiveSide(a) && SeenOrNewer(a, seen, bound) && n in a.registry && n != ""
    ensures DropSeen(a, seen, n) == Drop(a, n)
    ensures var b := Launch(Drop(a, n), n);
            && LiveSide(b) && SeenOrNewer(b, seen, bound) && b.services == a.services
            && forall m :: (m in b.registry <==> m in a.registry) && (Serves(b, m) <==> Serves(a, m) || m == n)
  {
    RestartedServes(a, n);
  }

  lemma RelaunchTurn(a: Agent, seen: map<string, Handle>, names: seq<string>, parses: Parses, i: nat)
    requires i < |names| && DropSeen(a, seen, names[i]) == Drop(a, names[i])
    ensures Relaunch(a, seen, names, parses, i)
            == if parses(i) then Relaunch(Launch(Drop(a, names[i]), names[i]), seen, names, parses, i + 1)
               else Outcome(Some(ParseFailed(names[i])), CloseAll(Drop(a, names[i]), names[..i]).(services := MarkAll(a.services, names[..i])))
  {
  }

  // What is registered, serves and is stored after relaunches that end at position k; those
  // before a failing parse are closed again.
  ghost predicate Relaunched(a: Agent, b: Agent, names: seq<string>, i: nat, k: nat, n: string)
    requires i <= k <= |names|
  {
    && (n in b.registry <==> n in a.registry && !(k < |names| && n == names[k]))
    && (Serves(b, n) <==> if k < |names| then Serves(a, n) && n !in names[..k + 1] else Serves(a, n) || n in names[i..])
    && b.services == if k < |names| then MarkAll(a.services, names[..k]) else a.services
  }

  lemma RelaunchStops(a: Agent, names: seq<string>, k: nat, i: nat, n: string)
    requires LiveSide(a) && i <= k < |names|
    ensures Relaunched(a, CloseAll(Drop(a, names[k]), names[..k]).(services := MarkAll(a.services, names[..k])), names, i, k, n)
  {
    DropLive(a, names[k]);
    ClosedServe(Drop(a, names[k]), names[..k], n);
    assert names[..k + 1] == names[..k] + [names[k]];
  }

  lemma RelaunchedOneMore(a: Agent, next: Agent, b: Agent, names: seq<string>, i: nat, k: nat, n: string)
    requires i < k <= |names| && Relaunched(next, b, names, i + 1, k, n) && next.services == a.services
    requires (n in next.registry <==> n in a.registry) && (Serves(next, n) <==> Serves(a, n) || n == names[i])
    ensures Relaunched(a, b, names, i, k, n)
  {
    assert names[i..] == [names[i]] + names[i + 1..];
    assert k < |names| ==> names[..k + 1][i] == names[i];
  }

  lemma {:induction false} RelaunchEffect(a: Agent, seen: map<string, Handle>, bound: Handle, names: seq<string>, parses: Parses, i: nat, k: nat, n: string)
    requires LiveSide(a) && SeenOrNewer(a, seen, bound)
    requires i <= k <= |names| && (forall j :: i <= j < k ==> parses(j)) && (k < |names| ==> !parses(k))
    requires forall j :: 0 <= j < |names| ==> names[j] in a.registry && names[j] != ""
    ensures Relaunch(a, seen, names, parses, i).error == if k < |names| then Some(ParseFailed(names[k])) else None
    ensures Relaunched(a, Relaunch(a, seen, names, parses, i).agent, names, i, k, n)
    decreases |names| - i
  {
    if i < |names| {
      SeenIsClosed(a, seen, bound, names[i]);
      RelaunchTurn(a, seen, names, parses, i);
      if i < k {
        var next := Launch(Drop(a, names[i]), names[i]);
        RelaunchEffect(next, seen, bound, names, parses, i + 1, k, n);
        RelaunchedOneMore(a, next, Relaunch(next, seen, names, parses, i + 1).agent, names, i, k, n);
      } else {
        RelaunchStops(a, names, k, i, n);
      }
    }
  }

  lemma {:induction false} MarkedAlready(s: seq<ServiceConfig>, names: seq<string>)
    requires forall j :: 0 <= j < |names| ==> Listed(s, names[j]) && Paused(s[IndexOf(s, names[j])])
    ensures MarkAll(s, names) == s
  {
    if names != [] {
      MarkedAlready(s, names[..|names| - 1]);
      var k := IndexOf(s, names[|names| - 1]);
      assert MarkPaused(s[k]).metadata.entries == s[k].metadata.entries;
      assert s[k := s[k]] == s;
    }
  }

  // What the paused services are that a resume was asked for.
  lemma TodoIs(a: Agent, names: seq<string>, todo: seq<string>)
    requires Agree(a) && (forall j :: 0 <= j < |names| ==> names[j] in a.registry) && todo == PausedNames(a.services, names)
    ensures forall n :: n in todo <==> n in names && !Serves(a, n)
    ensures forall n :: n in todo ==> n in a.registry && n != "" && Listed(a.services, n) && Paused(a.services[IndexOf(a.services, n)])
  {
    PausedNamesAre(a.services, names);
    forall n ensures Listed(a.services, n) <==> n in a.registry { ListedByName(a.services, n); }
    forall n | n in a.registry ensures Serves(a, n) <==> !Paused(a.services[IndexOf(a.services, n)]) { ServesAt(a, n); }
  }

  // When the k-th of the paused services that a resume was asked for is the first that fails to
  // parse, that name is not registered any more, and otherwise everything is as it was: the same
  // names are registered, the same services serve, none of the paused ones among them, and the
  // configuration list is the old one.
  lemma FailedResumeEffect(a: Agent, services: seq<string>, parses: Parses, k: nat, n: string)
    requires Agree(a) && services != [] && forall j :: 0 <= j < |services| ==> Trim(services[j]) in a.registry
    requires k < |PausedNames(a.services, TrimAll(services))| && (forall j :: 0 <= j < k ==> parses(j)) && !parses(k)
    ensures var todo, r := PausedNames(a.services, TrimAll(services)), Resume(a, services, parses);
            && r.error == Some(ParseFailed(todo[k])) && todo[k] in TrimAll(services)
            && (n in r.agent.registry <==> n in a.registry && n != todo[k])
            && (Serves(r.agent, n) <==> Serves(a, n)) && (n in todo ==> !Serves(r.agent, n))
            && r.agent.services == a.services
  {
    var names := TrimAll(services);
    var todo := PausedNames(a.services, names);
    ResumeNotRefused(a, names);
    TodoIs(a, names, todo);
    RelaunchOfTodo(a, todo, parses, k, n);
    assert todo[k] in todo;
  }

  lemma RelaunchOfTodo(a: Agent, todo: seq<string>, parses: Parses, k: nat, n: string)
    requires LiveSide(a) && SeenOrNewer(a, a.registry, a.next)
    requires k < |todo| && (forall j :: 0 <= j < k ==> parses(j)) && !parses(k)
    requires forall m :: m in todo ==> m in a.registry && m != "" && !Serves(a, m) && Listed(a.services, m) && Paused(a.services[IndexOf(a.services, m)])
    ensures var r := Relaunch(a, a.registry, todo, parses, 0);
            && r.error == Some(ParseFailed(todo[k])) && (n in r.agent.registry <==> n in a.registry && n != todo[k])
            && (Serves(r.agent, n) <==> Serves(a, n)) && r.agent.services == a.services
  {
    assert forall j :: 0 <= j < |todo| ==> todo[j] in todo;
    RelaunchEffect(a, a.registry, a.next, todo, parses, 0, k, n);
    FailedRelaunch(a, Relaunch(a, a.registry, todo, parses, 0).agent, todo, k, n);
  }

  lemma FailedRelaunch(a: Agent, b: Agent, todo: seq<string>, k: nat, n: string)
    requires k < |todo| && Relaunched(a, b, todo, 0, k, n)
    requires forall m :: m in todo ==> !Serves(a, m) && Listed(a.services, m) && Paused(a.services[IndexOf(a.services, m)])
    ensures (n in b.registry <==> n in a.registry && n != todo[k]) && (Serves(b, n) <==> Serves(a, n)) && b.services == a.services
  {
    MarkedAlready(a.services, todo[..k]);
    assert n in todo[..k + 1] ==> n in todo;
  }

  // When all of them parse, a resume starts what it names and takes the marks away; everything
  // else stays.
  lemma ResumeEffect(a: Agent, services: seq<string>, parses: Parses, n: string)
    requires Agree(a) && services != [] && forall j :: 0 <= j < |services| ==> Trim(services[j]) in a.registry
    requires forall j :: 0 <= j < |PausedNames(a.services, TrimAll(services))| ==> parses(j)
    ensures var names, r := TrimAll(services), Resume(a, services, parses);
            && r.error.None? && (n in r.agent.registry <==> n in a.registry)
            && (Serves(r.agent, n) <==> Serves(a, n) || n in names)
            && (Serves(a, n) || n !in names ==> ConfigOf(r.agent.services, n) == ConfigOf(a.services, n))
            && (!Serves(a, n) && n in names ==>
                  ConfigOf(a.services, n).Some? && ConfigOf(r.agent.services, n).Some?
                  && Remarked(ConfigOf(a.services, n).value, ConfigOf(r.agent.services, n).value, false))
  {
    var names := TrimAll(services);
    var todo := PausedNames(a.services, names);
    ResumeNotRefused(a, names);
    TodoIs(a, names, todo);
    assert forall j :: 0 <= j < |todo| ==> todo[j] in todo;
    RelaunchEffect(a, a.registry, a.next, todo, parses, 0, |todo|, n);
    assert todo[0..] == todo;
    ClearedMarks(a.services, todo, n);
  }

  lemma ClearedMarks(s: seq<ServiceConfig>, todo: seq<string>, n: string)
    requires forall m :: m in todo ==> Listed(s, m)
    ensures n !in todo ==> ConfigOf(ClearAll(s, todo), n) == ConfigOf(s, n)
    ensures n in todo ==> ConfigOf(ClearAll(s, todo), n).Some? && Remarked(ConfigOf(s, n).value, ConfigOf(ClearAll(s, todo), n).value, false)
  {
    ClearedConfigs(s, todo, n);
    if n in todo { ClearRemarks(ConfigOf(s, n).value); }
  }

  lemma ResumeNotRefused(a: Agent, names: seq<string>)
    requires Agree(a) && forall j :: 0 <= j < |names| ==> names[j] in a.registry
    ensures ResumeRefusal(a, names, 0).None? && SeenOrNewer(a, a.registry, a.next)
  {
    forall j | 0 <= j < |names| ensures Listed(a.services, names[j]) { ListedByName(a.services, names[j]); }
    ResumeAccepted(a, names, 0);
  }

  // A resume that is turned down names the first name at fault and changes nothing.
  lemma {:induction false} ResumeRefusedForFirst(a: Agent, names: seq<string>, i: nat, j: nat)
    requires Agree(a) && i <= j < |names| && (forall k :: i <= k < j ==> names[k] in a.registry) && names[j] !in a.registry
    ensures ResumeRefusal(a, names, i) == Some(if names[j] == "" then NameRequired else NotFound(names[j]))
    decreases |names| - i
  {
    if i < j {
      ListedByName(a.services, names[i]);
      ResumeRefusedForFirst(a, names, i + 1, j);
    }
  }

  lemma ResumeTurnedDown(a: Agent, services: seq<string>, parses: Parses, j: nat)
    requires Agree(a) && j < |services| && Trim(services[j]) !in a.registry && forall k :: 0 <= k < j ==> Trim(services[k]) in a.registry
    ensures Resume(a, services, parses) == Outcome(Some(if Trim(services[j]) == "" then NameRequired else NotFound(Trim(services[j]))), a)
  {
    ResumeRefusedForFirst(a, TrimAll(services), 0, j);
  }
}
