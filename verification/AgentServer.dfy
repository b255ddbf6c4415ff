/** The command handlers as they run: phased loops over the registry and the configuration
    list, each proved to do what AgentTables says. */
module AgentServer {
  import opened Text
  import opened AgentTables
  import opened AgentReplay

  lemma LaunchOneMore(a: Agent, names: seq<string>, i: nat)
    requires i < |names|
    ensures LaunchAll(a, names[..i + 1]) == Launch(LaunchAll(a, names[..i]), names[i])
    ensures LaunchAll(a, names[..i]).next == a.next + i && LaunchAll(a, names[..i]).services == a.services
    ensures names[i] in LaunchAll(a, names[..i]).registry <==> names[i] in a.registry || names[i] in names[..i]
  {
    LaunchAllNext(a, names[..i]);
    assert names[..i + 1][..i] == names[..i];
  }

  lemma ServesNext(a: Agent, names: seq<string>, i: nat)
    requires i < |names| && forall j, k :: 0 <= j < k < |names| ==> names[j] != names[k]
    ensures names[i] in LaunchAll(a, names).registry
    ensures LaunchAll(a, names[..i + 1]).serving == LaunchAll(a, names[..i]).serving + {LaunchAll(a, names).registry[names[i]]}
  {
    LaunchOneMore(a, names, i);
    LaunchAllAt(a, names, i);
  }

  // What was registered and not yet served is taken back without a trace but the numbers.
  lemma RegisteredThenDropped(a: Agent, names: seq<string>)
    requires forall h :: h in a.serving ==> h < a.next
    requires forall i :: 0 <= i < |names| ==> names[i] !in a.registry
    requires forall i, j :: 0 <= i < j < |names| ==> names[i] != names[j]
    ensures DropAll(LaunchAll(a, names).(serving := a.serving), names) == a.(next := a.next + |names|)
  {
    var b := LaunchAll(a, names).(serving := a.serving);
    var c := DropAll(b, names);
    LaunchAllNext(a, names);
    DropAllIs(b, names);
    assert c.registry == a.registry;
    forall n | n in names && n in b.registry ensures b.registry[n] !in a.serving {
      var i :| 0 <= i < |names| && names[i] == n;
      LaunchAllAt(a, names, i);
    }
    assert c.serving == a.serving;
  }

  lemma CloseNext(a: Agent, names: seq<string>, i: nat)
    requires i < |names|
    ensures CloseAll(a, names[..i + 1]) == CloseName(CloseAll(a, names[..i]), names[i])
  {
    assert names[..i + 1][..i] == names[..i];
  }

  lemma UnlistedNext(services: seq<ServiceConfig>, names: seq<string>, i: nat)
    requires i < |names| && Listed(services, names[i])
    ensures FirstUnlisted(services, names, i) == FirstUnlisted(services, names, i + 1)
  {
  }

  lemma RefusalNext(registry: map<string, Handle>, names: seq<string>, i: nat)
    requires i < |names|
    ensures Refusal(registry, names, true, ALL_PARSE, i)
         == if names[i] == "" then Some(NameRequired)
            else if names[i] !in registry then Some(NotFound(names[i]))
            else Refusal(registry, names, true, ALL_PARSE, i + 1)
  {
  }

  lemma RestartNext(a: Agent, names: seq<string>, parses: Parses, i: nat)
    requires i < |names|
    ensures Restart(a, names, parses, i)
         == if !parses(i) then Outcome(Some(ParseFailed(names[i])), Drop(a, names[i]))
            else Restart(Launch(Drop(a, names[i]), names[i]), names, parses, i + 1)
  {
  }

  lemma RepeatHere(names: seq<string>, i: nat)
    requires i < |names| && forall j, k :: 0 <= j < k < i ==> names[j] != names[k]
    ensures names[i] in names[..i] ==> FirstRepeat(names, 0) == i
    ensures names[i] !in names[..i] ==> forall j, k :: 0 <= j < k < i + 1 ==> names[j] != names[k]
  {
  }

  lemma RepeatFrom(names: seq<string>, j: nat)
    requires j <= |names| && forall i, k :: 0 <= i < k < j ==> names[i] != names[k]
    ensures FirstRepeat(names, 0) == FirstRepeat(names, j)
  {
  }

  class Server {
    var registry: map<string, Handle>
    var serving: set<Handle>
    var next: Handle
    var services: seq<ServiceConfig>

    ghost function State(): Agent
      reads this
    {
      Agent(registry, serving, next, services)
    }

    // Instances are numbered before they serve.
    ghost predicate Valid()
      reads this
    {
      (forall h :: h in serving ==> h < next) && (forall n :: n in registry ==> registry[n] < next)
    }

    constructor ()
      ensures State() == EMPTY && Valid()
    {
      registry, serving, next, services := map[], {}, 0, [];
    }

    // registry.Register: insert if absent. The instance gets the next number.
    method Register(name: string) returns (stored: bool)
      requires Valid()
      modifies this`registry, this`next
      ensures Valid()
      ensures stored <==> name !in old(registry)
      ensures stored ==> registry == old(registry)[name := old(next)] && next == old(next) + 1
      ensures !stored ==> registry == old(registry) && next == old(next)
    {
      stored := name !in registry;
      if stored { registry, next := registry[name := next], next + 1; }
    }

    method Close(h: Handle)
      requires Valid()
      modifies this`serving
      ensures Valid() && serving == old(serving) - {h}
    {
      serving := serving - {h};
    }

    // registry.Unregister: close the instance, if any, and remove the name.
    method Unregister(name: string)
      requires Valid()
      modifies this`registry, this`serving
      ensures Valid() && State() == Drop(old(State()), name)
    {
      if name in registry {
        Close(registry[name]);
        registry := registry - {name};
      } else {
        assert registry - {name} == registry;
      }
    }

    method Serve(name: string)
      requires Valid() && name in registry
      modifies this`serving
      ensures Valid() && serving == old(serving) + {registry[name]}
    {
      serving := serving + {registry[name]};
    }

    method CreateServices(data: seq<ServiceConfig>, parses: Parses) returns (error: Option<Error>)
      requires Valid()
      modifies this
      ensures Valid()
      ensures Outcome(error, State()) == Create(old(State()), data, parses)
    {
      if |data| == 0 { return Some(EmptyList); }
      var parsed;
      error, parsed := ParseAll(data, parses);
      if error.Some? { return; }
      assert NamesOf(parsed) == TrimAll(NamesOf(data));
      error := RegisterAll(NamesOf(parsed));
      if error.Some? { return; }
      ServeAll(old(State()), parsed);
      LaunchAllNext(old(State()), NamesOf(parsed));
      AppendAll(parsed);
    }

    // First phase: trim, look up and parse; nothing changes.
    method ParseAll(data: seq<ServiceConfig>, parses: Parses) returns (error: Option<Error>, parsed: seq<ServiceConfig>)
      ensures error == Refusal(registry, TrimAll(NamesOf(data)), false, parses, 0)
      ensures error.None? ==> parsed == Stored(data) && forall i :: 0 <= i < |parsed| ==> parsed[i].name !in registry
    {
      ghost var names := TrimAll(NamesOf(data));
      parsed := [];
      for i := 0 to |data|
        invariant parsed == Stored(data)[..i]
        invariant Refusal(registry, names, false, parses, 0) == Refusal(registry, names, false, parses, i)
        invariant forall j :: 0 <= j < i ==> parsed[j].name !in registry
      {
        var name := Trim(data[i].name);
        assert names[i] == name;
        if name == "" { return Some(NameRequired), parsed; }
        if name in registry { return Some(AlreadyExists(name)), parsed; }
        if !parses(i) { return Some(ParseFailed(name)), parsed; }
        parsed := parsed + [data[i].(name := name)];
      }
      assert parsed == Stored(data);
      error := None;
    }

    // Fourth phase.
    method AppendAll(parsed: seq<ServiceConfig>)
      modifies this`services
      ensures services == old(services) + parsed
    {
      for i := 0 to |parsed|
        invariant services == old(services) + parsed[..i]
      {
        services := services + [parsed[i]];
        assert parsed[..i] + [parsed[i]] == parsed[..i + 1];
      }
      assert parsed[..|parsed|] == parsed;
    }

    // Second phase: register in order; a repeated name takes everything back.
    method RegisterAll(names: seq<string>) returns (error: Option<Error>)
      requires Valid() && forall i :: 0 <= i < |names| ==> names[i] !in registry
      modifies this
      ensures Valid()
      ensures FirstRepeat(names, 0) < |names| ==>
                error == Some(AlreadyExists(names[FirstRepeat(names, 0)])) && State() == old(State()).(next := old(next) + FirstRepeat(names, 0))
      ensures FirstRepeat(names, 0) == |names| ==> error.None? && State() == LaunchAll(old(State()), names).(serving := old(serving))
    {
      ghost var a := State();
      for i := 0 to |names|
        invariant Valid() && State() == LaunchAll(a, names[..i]).(serving := a.serving)
        invariant forall j, k :: 0 <= j < k < i ==> names[j] != names[k]
      {
        LaunchOneMore(a, names, i);
        RepeatHere(names, i);
        var stored := Register(names[i]);
        if !stored {
          TakeBack(names[..i], a);
          return Some(AlreadyExists(names[i]));
        }
      }
      assert FirstRepeat(names, 0) == |names| by { RepeatFrom(names, |names|); }
      assert names[..|names|] == names;
      error := None;
    }

    // The rollback of RegisterAll.
    method TakeBack(registered: seq<string>, ghost a: Agent)
      requires Valid() && State() == LaunchAll(a, registered).(serving := a.serving)
      requires forall i :: 0 <= i < |registered| ==> registered[i] !in a.registry
      requires forall h :: h in a.serving ==> h < a.next
      requires forall i, j :: 0 <= i < j < |registered| ==> registered[i] != registered[j]
      modifies this
      ensures Valid() && State() == a.(next := old(next))
    {
      ghost var start := State();
      for i := 0 to |registered|
        invariant State() == DropAll(start, registered[..i]) && Valid()
      {
        assert registered[..i + 1][..i] == registered[..i];
        var name := registered[i];
        if name in registry {
          var h := registry[name];
          Unregister(name);
          Close(h);
        } else {
          assert registry - {name} == registry;
        }
      }
      assert registered[..|registered|] == registered;
      LaunchAllNext(a, registered);
      RegisteredThenDropped(a, registered);
    }

    // Third phase.
    method ServeAll(ghost a: Agent, parsed: seq<ServiceConfig>)
      requires Valid() && State() == LaunchAll(a, NamesOf(parsed)).(serving := a.serving)
      requires forall i, j :: 0 <= i < j < |parsed| ==> NamesOf(parsed)[i] != NamesOf(parsed)[j]
      modifies this`serving
      ensures Valid() && State() == LaunchAll(a, NamesOf(parsed))
    {
      ghost var names := NamesOf(parsed);
      LaunchAllNext(a, names);
      for i := 0 to |parsed|
        invariant Valid() && serving == LaunchAll(a, names[..i]).serving
      {
        ServesNext(a, names, i);
        Serve(parsed[i].name);
      }
      assert names[..|names|] == names;
    }

    // First phase of update, delete and pause: every name must be registered.
    method CheckRegistered(list: seq<string>) returns (error: Option<Error>)
      ensures error == Refusal(registry, TrimAll(list), true, ALL_PARSE, 0)
      ensures error.None? ==> forall i :: 0 <= i < |list| ==> Trim(list[i]) in registry
    {
      ghost var names := TrimAll(list);
      for i := 0 to |list|
        invariant Refusal(registry, names, true, ALL_PARSE, 0) == Refusal(registry, names, true, ALL_PARSE, i)
        invariant forall j :: 0 <= j < i ==> names[j] in registry
      {
        var name := Trim(list[i]);
        assert names[i] == name;
        RefusalNext(registry, names, i);
        if name == "" { return Some(NameRequired); }
        if name !in registry { return Some(NotFound(name)); }
      }
      error := None;
    }

    // The search through the configuration list that every command shares.
    method Find(name: string) returns (k: nat)
      ensures k == IndexOf(services, name)
    {
      k := 0;
      while k < |services|
        invariant k <= |services| && forall i :: 0 <= i < k ==> services[i].name != name
      {
        if services[k].name == name { return; }
        k := k + 1;
      }
    }

    method UpdateServices(data: seq<ServiceConfig>, parses: Parses) returns (error: Option<Error>)
      requires Valid()
      modifies this
      ensures Valid()
      ensures Outcome(error, State()) == Update(old(State()), data, parses)
    {
      if |data| == 0 { return Some(EmptyList); }
      error := CheckRegistered(NamesOf(data));
      if error.Some? { return; }
      error := RestartAll(TrimAll(NamesOf(data)), parses);
      if error.Some? { return; }
      ReplaceConfigs(data);
    }

    // Second phase of update: every service is closed and dropped before it is parsed anew.
    method RestartAll(names: seq<string>, parses: Parses) returns (error: Option<Error>)
      requires Valid() && forall j :: 0 <= j < |names| ==> names[j] in registry
      modifies this`registry, this`serving, this`next
      ensures Valid() && Outcome(error, State()) == Restart(old(State()), names, parses, 0)
    {
      ghost var a := State();
      for i := 0 to |names|
        invariant Valid() && Restart(a, names, parses, 0) == Restart(State(), names, parses, i)
        invariant forall j :: 0 <= j < |names| ==> names[j] in registry
      {
        var name := names[i];
        RestartNext(State(), names, parses, i);
        label turn:
        Close(registry[name]);
        Unregister(name);
        assert State() == Drop(old@turn(State()), name);
        if !parses(i) { return Some(ParseFailed(name)); }
        var stored := Register(name);
        assert stored;
        Serve(name);
        assert State() == Launch(Drop(old@turn(State()), name), name);
      }
      error := None;
    }

    // Third phase of update: the configurations, found by the names as sent.
    method ReplaceConfigs(data: seq<ServiceConfig>)
      modifies this`services
      ensures services == ReplaceAll(old(services), data)
    {
      for i := 0 to |data|
        invariant services == ReplaceAll(old(services), data[..i])
      {
        var k := Find(data[i].name);
        assert data[..i + 1][..i] == data[..i];
        if k < |services| { services := services[k := data[i]]; }
      }
      assert data[..|data|] == data;
    }

    method SyncServices(data: seq<ServiceConfig>, parses: Parses) returns (error: Option<Error>)
      requires Valid()
      modifies this
      ensures Valid()
      ensures Outcome(error, State()) == Sync(old(State()), data, parses)
    {
      if |data| == 0 { return Some(EmptyList); }
      for i := 0 to |data|
        invariant Valid() && SyncFrom(old(State()), data, parses, 0) == SyncFrom(State(), data, parses, i)
      {
        error := SyncService(data[i], parses(i));
        if error.Some? { return; }
      }
      error := None;
    }

    method SyncService(c: ServiceConfig, parses: bool) returns (error: Option<Error>)
      requires Valid()
      modifies this
      ensures Valid()
      ensures Outcome(error, State()) == SyncOne(old(State()), c, parses)
    {
      var name := Trim(c.name);
      if name == "" { return Some(NameRequired); }
      if name in registry {
        error := UpdateServices([c.(name := name)], Always(parses));
      } else {
        error := CreateServices([c.(name := name)], Always(parses));
      }
    }

    method DeleteServices(list: seq<string>) returns (error: Option<Error>)
      requires Valid()
      modifies this
      ensures Valid()
      ensures Outcome(error, State()) == Delete(old(State()), list)
    {
      if |list| == 0 { return Some(EmptyList); }
      error := CheckRegistered(list);
      if error.Some? { return; }
      var names := TrimAll(list);
      UnregisterAll(names);
      DropAllList(old(State()), names);
      KeepOthers(names);
    }

    method UnregisterAll(names: seq<string>)
      requires Valid() && forall i :: 0 <= i < |names| ==> names[i] in registry
      modifies this`registry, this`serving
      ensures Valid() && State() == DropAll(old(State()), names)
    {
      ghost var a := State();
      var instances := registry;
      for i := 0 to |names|
        invariant Valid() && State() == DropAll(a, names[..i])
        invariant forall n :: n in registry ==> n in a.registry && registry[n] == a.registry[n]
        invariant forall n :: n in a.registry ==> n in registry || a.registry[n] !in serving
      {
        assert names[..i + 1][..i] == names[..i];
        Unregister(names[i]);
        Close(instances[names[i]]);
      }
      assert names[..|names|] == names;
    }

    method KeepOthers(names: seq<string>)
      modifies this`services
      ensures services == Without(old(services), names)
    {
      var kept: seq<ServiceConfig> := [];
      for i := 0 to |services|
        invariant services == old(services) && kept == Without(services[..i], names)
      {
        var shouldDelete := false;
        for k := 0 to |names|
          invariant shouldDelete <==> services[i].name in names[..k]
        {
          if services[i].name == names[k] { shouldDelete := true; }
          assert names[..k + 1] == names[..k] + [names[k]];
        }
        assert names[..|names|] == names;
        assert services[..i + 1][..i] == services[..i];
        if !shouldDelete { kept := kept + [services[i]]; }
      }
      assert services[..|services|] == services;
      services := kept;
    }

    static lemma {:induction false} DropAllList(a: Agent, names: seq<string>)
      ensures DropAll(a, names).services == a.services
    {
      if names != [] { DropAllList(a, names[..|names| - 1]); }
    }

    method PauseServices(list: seq<string>, parses: Parses) returns (error: Option<Error>)
      requires Valid()
      modifies this
      ensures Valid()
      ensures Outcome(error, State()) == Pause(old(State()), list)
    {
      if |list| == 0 { return Some(EmptyList); }
      error := CheckRegistered(list);
      if error.Some? { return; }
      var names := TrimAll(list);
      error := CloseServices(names, parses);
      if error.Some? { return; }
      MarkServices(names);
    }

    // Second phase: close one by one; a missing configuration starts the rollback.
    method CloseServices(names: seq<string>, parses: Parses) returns (error: Option<Error>)
      requires Valid() && forall i :: 0 <= i < |names| ==> names[i] in registry
      modifies this
      ensures Valid() && registry == old(registry) && services == old(services)
      ensures var k := FirstUnlisted(old(services), names, 0);
              if k < |names| then error == Some(ConfigNotFound(names[k])) && State() == CloseAll(old(State()), names[..k])
              else error.None? && State() == CloseAll(old(State()), names)
    {
      for i := 0 to |names|
        invariant Valid() && State() == CloseAll(old(State()), names[..i])
        invariant registry == old(registry) && services == old(services)
        invariant FirstUnlisted(services, names, 0) == FirstUnlisted(services, names, i)
      {
        var k := Find(names[i]);
        if k == |services| {
          RollbackPaused(names[..i], parses);
          return Some(ConfigNotFound(names[i]));
        }
        UnlistedNext(services, names, i);
        CloseNext(old(State()), names, i);
        Close(registry[names[i]]);
      }
      assert names[..|names|] == names;
      error := None;
    }

    method MarkServices(names: seq<string>)
      modifies this`services
      ensures services == MarkAll(old(services), names)
    {
      for i := 0 to |names|
        invariant services == MarkAll(old(services), names[..i])
      {
        var k := Find(names[i]);
        assert names[..i + 1][..i] == names[..i];
        if k < |services| { services := services[k := MarkPaused(services[k])]; }
      }
      assert names[..|names|] == names;
    }

    // Every name is still registered, so nothing can be registered in its place.
    method RollbackPaused(names: seq<string>, parses: Parses)
      requires Valid() && forall i :: 0 <= i < |names| ==> names[i] in registry
      modifies this
      ensures Valid() && State() == old(State())
    {
      for i := 0 to |names|
        invariant Valid() && State() == old(State())
      {
        if parses(i) {
          var stored := Register(names[i]);
          assert !stored;
        }
      }
    }

    method ResumeServices(list: seq<string>, parses: Parses) returns (error: Option<Error>)
      requires Valid()
      modifies this
      ensures Valid()
      ensures Outcome(error, State()) == Resume(old(State()), list, parses)
    {
      if |list| == 0 { return Some(EmptyList); }
      var todo;
      error, todo := CollectPaused(TrimAll(list));
      if error.Some? { return; }
      error := RelaunchAll(todo, registry, parses);
      if error.Some? { return; }
      ClearServices(todo);
    }

    method CollectPaused(names: seq<string>) returns (error: Option<Error>, todo: seq<string>)
      ensures error == ResumeRefusal(State(), names, 0)
      ensures error.None? ==> todo == PausedNames(services, names)
    {
      todo := [];
      for i := 0 to |names|
        invariant ResumeRefusal(State(), names, 0) == ResumeRefusal(State(), names, i)
        invariant todo == PausedNames(services, names[..i])
      {
        var name := names[i];
        if name == "" { return Some(NameRequired), todo; }
        if name !in registry { return Some(NotFound(name)), todo; }
        var k := Find(name);
        if k == |services| { return Some(ConfigNotFound(name)), todo; }
        assert names[..i + 1][..i] == names[..i];
        if Paused(services[k]) { todo := todo + [name]; }
      }
      assert names[..|names|] == names;
      error := None;
    }

    method ClearServices(names: seq<string>)
      modifies this`services
      ensures services == ClearAll(old(services), names)
    {
      for i := 0 to |names|
        invariant services == ClearAll(old(services), names[..i])
      {
        var k := Find(names[i]);
        assert names[..i + 1][..i] == names[..i];
        if k < |services| { services := services[k := ClearPaused(services[k])]; }
      }
      assert names[..|names|] == names;
    }

    method RelaunchAll(todo: seq<string>, seen: map<string, Handle>, parses: Parses) returns (error: Option<Error>)
      requires Valid()
      modifies this
      ensures Valid()
      ensures Outcome(error, State()) == Relaunch(old(State()), seen, todo, parses, 0)
      ensures error.None? ==> services == old(services)
    {
      for i := 0 to |todo|
        invariant Valid() && services == old(services)
        invariant Relaunch(old(State()), seen, todo, parses, 0) == Relaunch(State(), seen, todo, parses, i)
      {
        label turn:
        if todo[i] in seen { Close(seen[todo[i]]); }
        Unregister(todo[i]);
        assert State() == DropSeen(old@turn(State()), seen, todo[i]);
        if !parses(i) {
          RollbackResumed(todo[..i]);
          return Some(ParseFailed(todo[i]));
        }
        var stored := Register(todo[i]);
        assert stored;
        Serve(todo[i]);
      }
      error := None;
    }

    // Close what was relaunched and mark it as paused again.
    method RollbackResumed(names: seq<string>)
      requires Valid()
      modifies this
      ensures Valid()
      ensures State() == CloseAll(old(State()), names).(services := MarkAll(old(services), names))
    {
      for i := 0 to |names|
        invariant Valid() && State() == CloseAll(old(State()), names[..i]).(services := MarkAll(old(services), names[..i]))
      {
        assert names[..i + 1][..i] == names[..i];
        if names[i] in registry { Close(registry[names[i]]); }
        var k := Find(names[i]);
        if k < |services| { services := services[k := MarkPaused(services[k])]; }
      }
      assert names[..|names|] == names;
    }
  }
}
