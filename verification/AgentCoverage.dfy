/** Every registered service has a configuration, in every run of any commands: the branches
    of pause and resume for a missing configuration, and the rollback of a pause, are never
    reached. Unlike the full agreement this needs no assumption on parses, names or marks. */
module AgentCoverage {
  import opened Text
  import opened AgentTables
  import opened AgentAgreement
  import opened AgentReplay

  ghost predicate Covered(a: Agent) { forall n :: n in a.registry ==> n in NamesOf(a.services) }

  // Nothing new is registered, and no name leaves the list.
  ghost predicate NoNewNames(a: Agent, b: Agent) {
    (forall n :: n in b.registry ==> n in a.registry) && NamesOf(b.services) == NamesOf(a.services)
  }

  // ---- what the edits of the list keep ----

  lemma {:induction false} ReplaceAllKeepsNames(services: seq<ServiceConfig>, data: seq<ServiceConfig>)
    ensures NamesOf(ReplaceAll(services, data)) == NamesOf(services)
  {
    if data != [] {
      ReplaceAllKeepsNames(services, data[..|data| - 1]);
      assert NamesOf(ReplaceAll(services, data)) == NamesOf(ReplaceAll(services, data[..|data| - 1]));
    }
  }

  lemma MarkedNames(services: seq<ServiceConfig>, names: seq<string>)
    ensures NamesOf(MarkAll(services, names)) == NamesOf(services)
    ensures NamesOf(ClearAll(services, names)) == NamesOf(services)
  {
    MarkAllKeepsNames(services, names);
    ClearAllKeepsNames(services, names);
  }

  lemma {:induction false} WithoutKeepsOthers(services: seq<ServiceConfig>, names: seq<string>, n: string)
    requires n in NamesOf(services) && n !in names
    ensures n in NamesOf(Without(services, names))
  {
    var k := |services| - 1;
    var init := Without(services[..k], names);
    if services[k].name == n {
      assert NamesOf(init + [services[k]])[|init|] == n;
    } else {
      var i :| 0 <= i < |services| && NamesOf(services)[i] == n;
      assert NamesOf(services[..k])[i] == n;
      WithoutKeepsOthers(services[..k], names, n);
      var j :| 0 <= j < |init| && NamesOf(init)[j] == n;
      assert Without(services, names)[j] == init[j];
      assert NamesOf(Without(services, names))[j] == n;
    }
  }

  // ---- one command ----

  lemma CreateCovers(a: Agent, data: seq<ServiceConfig>, parses: Parses)
    requires Covered(a)
    ensures Covered(Create(a, data, parses).agent)
  {
    var names, b := TrimAll(NamesOf(data)), Create(a, data, parses).agent;
    CreateIs(a, data, parses);
    if Create(a, data, parses).error.None? {
      LaunchAllNext(a, names);
      assert NamesOf(a.services + Stored(data)) == NamesOf(a.services) + names;
    }
  }

  lemma {:induction false} RestartAddsNoName(a: Agent, names: seq<string>, parses: Parses, i: nat)
    requires forall j :: i <= j < |names| ==> names[j] in a.registry
    ensures NoNewNames(a, Restart(a, names, parses, i).agent)
    decreases |names| - i
  {
    if i < |names| && parses(i) { RestartAddsNoName(Launch(Drop(a, names[i]), names[i]), names, parses, i + 1); }
  }

  lemma UpdateCovers(a: Agent, data: seq<ServiceConfig>, parses: Parses)
    requires Covered(a)
    ensures Covered(Update(a, data, parses).agent)
  {
    var names := TrimAll(NamesOf(data));
    if Refusal(a.registry, names, true, ALL_PARSE, 0).None? {
      NotRefused(a.registry, names, true, ALL_PARSE, 0);
      RestartAddsNoName(a, names, parses, 0);
      ReplaceAllKeepsNames(a.services, data);
    }
  }

  lemma {:induction false} SyncCovers(a: Agent, data: seq<ServiceConfig>, parses: Parses, i: nat)
    requires Covered(a)
    ensures Covered(SyncFrom(a, data, parses, i).agent)
    decreases |data| - i
  {
    if i < |data| {
      var c := data[i].(name := Trim(data[i].name));
      CreateCovers(a, [c], Always(parses(i)));
      UpdateCovers(a, [c], Always(parses(i)));
      SyncCovers(SyncOne(a, data[i], parses(i)).agent, data, parses, i + 1);
    }
  }

  lemma DeleteCovers(a: Agent, services: seq<string>)
    requires Covered(a)
    ensures Covered(Delete(a, services).agent)
  {
    var names, b := TrimAll(services), Delete(a, services).agent;
    DropAllIs(a, names);
    if Delete(a, services).error.None? {
      forall n | n in b.registry ensures n in NamesOf(b.services) { WithoutKeepsOthers(a.services, names, n); }
    }
  }

  lemma PauseCovers(a: Agent, services: seq<string>)
    requires Covered(a)
    ensures Covered(Pause(a, services).agent)
  {
    var names := TrimAll(services);
    CloseAllFrame(a, names);
    CloseAllFrame(a, names[..FirstUnlisted(a.services, names, 0)]);
    MarkedNames(a.services, names);
  }

  lemma {:induction false} RelaunchAddsNoName(a: Agent, seen: map<string, Handle>, names: seq<string>, parses: Parses, i: nat)
    requires forall j :: i <= j < |names| ==> names[j] in a.registry
    ensures NoNewNames(a, Relaunch(a, seen, names, parses, i).agent)
    decreases |names| - i
  {
    if i < |names| {
      var dropped := DropSeen(a, seen, names[i]);
      if parses(i) {
        RelaunchAddsNoName(Launch(dropped, names[i]), seen, names, parses, i + 1);
      } else {
        CloseAllFrame(dropped, names[..i]);
        MarkedNames(a.services, names[..i]);
      }
    }
  }

  lemma ResumeCovers(a: Agent, services: seq<string>, parses: Parses)
    requires Covered(a)
    ensures Covered(Resume(a, services, parses).agent)
  {
    var names := TrimAll(services);
    if ResumeRefusal(a, names, 0).None? {
      var todo := PausedNames(a.services, names);
      PausedNamesAre(a.services, names);
      NotResumeRefused(a, names, 0);
      forall j | 0 <= j < |todo| ensures todo[j] in a.registry { assert todo[j] in names; }
      RelaunchAddsNoName(a, a.registry, todo, parses, 0);
      MarkedNames(a.services, todo);
    }
  }

  lemma {:induction false} NotResumeRefused(a: Agent, names: seq<string>, i: nat)
    requires ResumeRefusal(a, names, i).None?
    ensures forall j :: i <= j < |names| ==> names[j] in a.registry
    decreases |names| - i
  {
    if i < |names| { NotResumeRefused(a, names, i + 1); }
  }

  lemma CommandCovers(a: Agent, c: Command)
    requires Covered(a)
    ensures Covered(Execute(a, c).agent)
  {
    match c
    case AddService(data, parses) => CreateCovers(a, data, parses);
    case UpdateService(data, parses) => UpdateCovers(a, data, parses);
    case SyncService(data, parses) => SyncCovers(a, data, parses, 0);
    case DeleteService(services) => DeleteCovers(a, services);
    case PauseService(services) => PauseCovers(a, services);
    case ResumeService(services, parses) => ResumeCovers(a, services, parses);
  }

  lemma {:induction false} RunCovers(a: Agent, commands: seq<Command>)
    requires Covered(a)
    ensures Covered(Run(a, commands))
    decreases |commands|
  {
    if commands != [] {
      CommandCovers(a, commands[0]);
      RunCovers(Execute(a, commands[0]).agent, commands[1..]);
    }
  }

  // ---- the missing configuration ----

  lemma {:induction false} ResumeRefusalKinds(a: Agent, names: seq<string>, i: nat)
    requires Covered(a)
    ensures var e := ResumeRefusal(a, names, i); e.Some? ==> e.value.NameRequired? || e.value.NotFound?
    decreases |names| - i
  {
    if i < |names| {
      ListedByName(a.services, names[i]);
      ResumeRefusalKinds(a, names, i + 1);
    }
  }

  lemma {:induction false} RelaunchErrors(a: Agent, seen: map<string, Handle>, names: seq<string>, parses: Parses, i: nat)
    ensures var e := Relaunch(a, seen, names, parses, i).error; e.Some? ==> e.value.ParseFailed?
    decreases |names| - i
  {
    if i < |names| && parses(i) { RelaunchErrors(Launch(DropSeen(a, seen, names[i]), names[i]), seen, names, parses, i + 1); }
  }

  lemma CoveredFinds(a: Agent, services: seq<string>, parses: Parses)
    requires Covered(a)
    ensures var e := Pause(a, services).error; e.Some? ==> !e.value.ConfigNotFound?
    ensures var e := Resume(a, services, parses).error; e.Some? ==> !e.value.ConfigNotFound?
  {
    var names := TrimAll(services);
    if Refusal(a.registry, names, true, ALL_PARSE, 0).None? {
      NotRefused(a.registry, names, true, ALL_PARSE, 0);
      forall i | 0 <= i < |names| ensures Listed(a.services, names[i]) { ListedByName(a.services, names[i]); }
    } else {
      RefusalKinds(a.registry, names, 0);
    }
    ResumeRefusalKinds(a, names, 0);
    RelaunchErrors(a, a.registry, PausedNames(a.services, names), parses, 0);
  }

  // In every run from empty tables, whatever parses, whatever names and marks the commands
  // carry, neither pause nor resume ever misses a configuration, so no pause is rolled back.
  lemma ConfigurationsAreNeverMissing(commands: seq<Command>, services: seq<string>, parses: Parses)
    ensures var a := Run(EMPTY, commands);
            && (forall n :: n in a.registry ==> n in NamesOf(a.services))
            && (var e := Pause(a, services).error; e.Some? ==> !e.value.ConfigNotFound?)
            && (var e := Resume(a, services, parses).error; e.Some? ==> !e.value.ConfigNotFound?)
  {
    RunCovers(EMPTY, commands);
    CoveredFinds(Run(EMPTY, commands), services, parses);
  }

  // ---- the rollback ----

  lemma {:induction false} CloseAllClosed(a: Agent, names: seq<string>, h: Handle)
    ensures h in CloseAll(a, names).serving <==> h in a.serving && forall n :: n in names && n in a.registry ==> a.registry[n] != h
  {
    if names != [] {
      var init, last := names[..|names| - 1], names[|names| - 1];
      CloseAllClosed(a, init, h);
      CloseAllFrame(a, init);
      assert names == init + [last];
    }
  }

  // Had it been reached, on whatever agent: the rollback changes nothing but what serves, and
  // leaves that as it was exactly when none of the services before the missing one was serving.
  lemma PauseRollbackRestoresExactly(a: Agent, services: seq<string>)
    requires Pause(a, services).error.Some? && Pause(a, services).error.value.ConfigNotFound?
    ensures var names, b := TrimAll(services), Pause(a, services).agent;
            var k := FirstUnlisted(a.services, names, 0);
            k < |names| && b == a.(serving := b.serving)
            && (b.serving == a.serving <==> forall j :: 0 <= j < k ==> !Serves(a, names[j]))
  {
    var names, b := TrimAll(services), Pause(a, services).agent;
    RefusalKinds(a.registry, names, 0);
    var closed := names[..FirstUnlisted(a.services, names, 0)];
    CloseAllFrame(a, closed);
    forall h ensures h in b.serving <==> h in a.serving && forall n :: n in closed && n in a.registry ==> a.registry[n] != h {
      CloseAllClosed(a, closed, h);
    }
    if b.serving == a.serving {
      forall j | 0 <= j < |closed| ensures !Serves(a, names[j]) { assert closed[j] in closed; }
    } else {
      var h :| h in a.serving && h !in b.serving;
      var n :| n in closed && n in a.registry && a.registry[n] == h;
      var j :| 0 <= j < |closed| && closed[j] == n;
      assert Serves(a, names[j]);
    }
  }
}
