/** `CompositionManifest::validate`. */
module Validation {
  import opened Prelude
  import opened Text
  import opened Checks
  import opened Model
  import opened GpuUuid
  import opened DependencyOrder
  import opened DependencyOrderTheory

  // ----- What a valid manifest is -----

  predicate Blank(s: string) {
    Trim(s) == ""
  }

  predicate ValidService(m: Manifest, name: string)
    requires name in m.services
  {
    var service := m.services[name];
    && !Blank(name) && !Blank(service.image)
    && (forall d :: d in service.dependsOn ==> d != name && d in m.services)
    && (service.GpuOf().Some? ==>
          var uuids := service.GpuOf().value.uuids;
          uuids != [] && forall u :: u in uuids ==> Canonical(u).Some?)
  }

  predicate ValidAction(m: Manifest, action: Action) {
    action.service in m.services && action.command != [] && action.outputRoot.Some? && !Blank(action.outputRoot.value)
  }

  predicate HeaderFine(m: Manifest) {
    m.apiVersion == API_VERSION && !Blank(m.name) && m.services != map[]
  }

  ghost predicate ServicesFine(m: Manifest) {
    forall n :: n in m.services ==> ValidService(m, n)
  }

  ghost predicate ActionsFine(m: Manifest) {
    forall n :: n in m.actions ==> ValidAction(m, m.actions[n])
  }

  ghost predicate ValidManifest(m: Manifest) {
    && HeaderFine(m)
    && ServicesFine(m)
    && !Cyclic(Dependencies(m))
    && ActionsFine(m)
    && (forall n :: n in m.teardown.order ==> n in m.services)
  }

  lemma ValidIsClosed(m: Manifest)
    requires ServicesFine(m)
    ensures Closed(Dependencies(m))
  {
  }

  lemma BlankIff(s: string)
    ensures Blank(s) <==> AllWhitespace(s)
  {
    TrimsToNothingIff(s);
  }

  // ----- The checks, in their order -----

  function Demand(holds: bool, code: string): Check {
    Check(holds, Raise(ErrorKind.Validation, code))
  }

  ghost function HeaderChecks(m: Manifest): seq<Check> {
    [ Demand(m.apiVersion == "phenocompose.dev/v0", "schema_version"),
      Demand(!AllWhitespace(m.name), "metadata_name"),
      Demand(m.services.Keys != {}, "services_empty") ]
  }

  ghost function ServiceChecks(m: Manifest, name: string): seq<Check>
    requires name in m.services
  {
    var service := m.services[name];
    [ Demand(!AllWhitespace(name) && !AllWhitespace(service.image), "service_invalid"),
      Demand(forall d :: d in service.dependsOn ==> d != name && d in m.services, "dependency_invalid"),
      Demand(service.GpuOf().Some? ==> service.GpuOf().value.uuids != [], "gpu_selector_empty"),
      Demand(
        service.GpuOf().Some? ==> forall u :: u in service.GpuOf().value.uuids ==> Canonical(u).Some?,
        "gpu_selector_invalid") ]
  }

  ghost function ActionChecks(m: Manifest, action: Action): seq<Check> {
    [ Demand(action.service in m.services && action.command != [], "action_invalid"),
      Demand(action.outputRoot.Some?, "action_output_root_missing"),
      Demand(action.outputRoot.Some? ==> !AllWhitespace(action.outputRoot.value), "action_output_root_empty") ]
  }

  // ----- validate -----

  /** The first faulty service in key order, and its first fault. */
  ghost predicate FirstServiceFault(m: Manifest, name: string, error: CliError) {
    && name in m.services && FirstFailure(ServiceChecks(m, name), error)
    && forall p :: p in m.services && LexLess(p, name) ==> ValidService(m, p)
  }

  ghost predicate FirstActionFault(m: Manifest, name: string, error: CliError) {
    && name in m.actions && FirstFailure(ActionChecks(m, m.actions[name]), error)
    && forall p :: p in m.actions && LexLess(p, name) ==> ValidAction(m, m.actions[p])
  }

  /** Codes come in the order of the checks: everything checked earlier is fine. */
  ghost predicate Explains(m: Manifest, error: CliError) {
    if !HeaderFine(m) then
      FirstFailure(HeaderChecks(m), error)
    else if !ServicesFine(m) then
      exists n :: FirstServiceFault(m, n, error)
    else if Cyclic(Dependencies(m)) then
      BlamesCycle(Dependencies(m), error)
    else if !ActionsFine(m) then
      exists n :: FirstActionFault(m, n, error)
    else
      error == Raise(ErrorKind.Validation, "teardown_invalid") && exists n :: n in m.teardown.order && n !in m.services
  }

  method CheckService(m: Manifest, name: string) returns (r: Result<Unit, CliError>)
    requires name in m.services
    ensures Decides(ServiceChecks(m, name), FaultOf(r))
    ensures r.Ok? <==> ValidService(m, name)
  {
    var service := m.services[name];
    BlankIff(name);
    BlankIff(service.image);
    ghost var checks := ServiceChecks(m, name);
    if Blank(name) || Blank(service.image) {
      assert FailsAt(checks, 0);
      return Err(Raise(ErrorKind.Validation, "service_invalid"));
    }
    for i := 0 to |service.dependsOn|
      invariant forall d :: d in service.dependsOn[..i] ==> d != name && d in m.services
    {
      var d := service.dependsOn[i];
      if d == name || d !in m.services {
        assert FailsAt(checks, 1);
        return Err(Raise(ErrorKind.Validation, "dependency_invalid"));
      }
      TakeNext(service.dependsOn, i);
    }
    TakeAll(service.dependsOn);
    if service.GpuOf().Some? {
      r := CheckSelectors(m, name, service.GpuOf().value.uuids);
      return;
    }
    return Ok(Unit);
  }

  method CheckSelectors(m: Manifest, name: string, uuids: seq<string>) returns (r: Result<Unit, CliError>)
    requires name in m.services && m.services[name].GpuOf().Some? && uuids == m.services[name].GpuOf().value.uuids
    requires ServiceChecks(m, name)[0].holds && ServiceChecks(m, name)[1].holds
    ensures Decides(ServiceChecks(m, name), FaultOf(r))
    ensures r.Ok? <==> uuids != [] && forall u :: u in uuids ==> Canonical(u).Some?
  {
    ghost var checks := ServiceChecks(m, name);
    if uuids == [] {
      assert FailsAt(checks, 2);
      return Err(Raise(ErrorKind.Validation, "gpu_selector_empty"));
    }
    for i := 0 to |uuids|
      invariant forall u :: u in uuids[..i] ==> Canonical(u).Some?
    {
      if Canonical(uuids[i]).None? {
        assert FailsAt(checks, 3);
        return Err(Raise(ErrorKind.Validation, "gpu_selector_invalid"));
      }
      TakeNext(uuids, i);
    }
    TakeAll(uuids);
    return Ok(Unit);
  }

  ghost predicate NoFaultIn(m: Manifest, names: seq<string>) {
    forall n :: n in names ==> n in m.services && ValidService(m, n)
  }

  lemma NoFaultNext(m: Manifest, names: seq<string>, i: nat)
    requires i < |names| && NoFaultIn(m, names[..i])
    requires names[i] in m.services && ValidService(m, names[i])
    ensures NoFaultIn(m, names[..i + 1])
  {
    TakeNext(names, i);
  }

  lemma NoFaultIsFine(m: Manifest, names: seq<string>)
    requires NoFaultIn(m, names) && forall n :: n in m.services ==> n in names
    ensures ServicesFine(m)
  {
    forall n | n in m.services
      ensures ValidService(m, n)
    {
      assert n in names;
    }
  }

  lemma FaultIsFirst(m: Manifest, names: seq<string>, i: nat, error: CliError)
    requires StrictlySorted(names) && i < |names| && forall n :: n in names <==> n in m.services
    requires NoFaultIn(m, names[..i]) && !ValidService(m, names[i])
    requires FirstFailure(ServiceChecks(m, names[i]), error)
    ensures FirstServiceFault(m, names[i], error) && !ServicesFine(m)
  {
    forall p | p in m.services && LexLess(p, names[i])
      ensures p in names[..i]
    {
      EarlierKeys(names, i, p);
    }
  }

  method CheckServices(m: Manifest) returns (r: Result<Unit, CliError>)
    ensures r.Ok? <==> ServicesFine(m)
    ensures r.Err? ==> exists n :: FirstServiceFault(m, n, r.error)
  {
    var names := KeysInOrder(m.services.Keys);
    for i := 0 to |names|
      invariant NoFaultIn(m, names[..i])
    {
      var checked := CheckService(m, names[i]);
      if checked.Err? {
        FaultIsFirst(m, names, i, checked.error);
        return checked;
      }
      NoFaultNext(m, names, i);
    }
    TakeAll(names);
    NoFaultIsFine(m, names);
    return Ok(Unit);
  }

  ghost predicate NoActionFaultIn(m: Manifest, names: seq<string>) {
    forall n :: n in names ==> n in m.actions && ValidAction(m, m.actions[n])
  }

  lemma NoActionFaultNext(m: Manifest, names: seq<string>, i: nat)
    requires i < |names| && NoActionFaultIn(m, names[..i])
    requires names[i] in m.actions && ValidAction(m, m.actions[names[i]])
    ensures NoActionFaultIn(m, names[..i + 1])
  {
    TakeNext(names, i);
  }

  lemma NoActionFaultIsFine(m: Manifest, names: seq<string>)
    requires NoActionFaultIn(m, names) && forall n :: n in m.actions ==> n in names
    ensures ActionsFine(m)
  {
    forall n | n in m.actions
      ensures ValidAction(m, m.actions[n])
    {
      assert n in names;
    }
  }

  lemma ActionFaultIsFirst(m: Manifest, names: seq<string>, i: nat, error: CliError)
    requires StrictlySorted(names) && i < |names| && forall n :: n in names <==> n in m.actions
    requires NoActionFaultIn(m, names[..i]) && !ValidAction(m, m.actions[names[i]])
    requires FirstFailure(ActionChecks(m, m.actions[names[i]]), error)
    ensures FirstActionFault(m, names[i], error) && !ActionsFine(m)
  {
    forall p | p in m.actions && LexLess(p, names[i])
      ensures p in names[..i]
    {
      EarlierKeys(names, i, p);
    }
  }

  method CheckAction(m: Manifest, action: Action) returns (r: Result<Unit, CliError>)
    ensures Decides(ActionChecks(m, action), FaultOf(r))
    ensures r.Ok? <==> ValidAction(m, action)
  {
    ghost var checks := ActionChecks(m, action);
    if action.service !in m.services || action.command == [] {
      assert FailsAt(checks, 0);
      return Err(Raise(ErrorKind.Validation, "action_invalid"));
    }
    if action.outputRoot.None? {
      assert FailsAt(checks, 1);
      return Err(Raise(ErrorKind.Validation, "action_output_root_missing"));
    }
    BlankIff(action.outputRoot.value);
    if Blank(action.outputRoot.value) {
      assert FailsAt(checks, 2);
      return Err(Raise(ErrorKind.Validation, "action_output_root_empty"));
    }
    return Ok(Unit);
  }

  method CheckActions(m: Manifest) returns (r: Result<Unit, CliError>)
    ensures r.Ok? <==> ActionsFine(m)
    ensures r.Err? ==> exists n :: FirstActionFault(m, n, r.error)
  {
    var names := KeysInOrder(m.actions.Keys);
    for i := 0 to |names|
      invariant NoActionFaultIn(m, names[..i])
    {
      var checked := CheckAction(m, m.actions[names[i]]);
      if checked.Err? {
        ActionFaultIsFirst(m, names, i, checked.error);
        return checked;
      }
      NoActionFaultNext(m, names, i);
    }
    TakeAll(names);
    NoActionFaultIsFine(m, names);
    return Ok(Unit);
  }

  method CheckTeardown(m: Manifest) returns (r: Result<Unit, CliError>)
    ensures r.Ok? <==> forall n :: n in m.teardown.order ==> n in m.services
    ensures r.Err? ==> r.error == Raise(ErrorKind.Validation, "teardown_invalid")
  {
    for i := 0 to |m.teardown.order|
      invariant forall n :: n in m.teardown.order[..i] ==> n in m.services
    {
      if m.teardown.order[i] !in m.services {
        return Err(Raise(ErrorKind.Validation, "teardown_invalid"));
      }
      TakeNext(m.teardown.order, i);
    }
    TakeAll(m.teardown.order);
    return Ok(Unit);
  }

  method CheckHeader(m: Manifest) returns (r: Result<Unit, CliError>)
    ensures Decides(HeaderChecks(m), FaultOf(r))
    ensures r.Ok? <==> HeaderFine(m)
  {
    ghost var checks := HeaderChecks(m);
    TrimsToNothingIff(m.name);
    if m.apiVersion != API_VERSION {
      assert FailsAt(checks, 0);
      return Err(Raise(ErrorKind.Validation, "schema_version"));
    }
    if Trim(m.name) == "" {
      assert FailsAt(checks, 1);
      return Err(Raise(ErrorKind.Validation, "metadata_name"));
    }
    if |m.services| == 0 {
      assert m.services == map[];
      assert FailsAt(checks, 2);
      return Err(Raise(ErrorKind.Validation, "services_empty"));
    }
    return Ok(Unit);
  }

  method Validate(m: Manifest) returns (r: Result<Unit, CliError>)
    ensures r.Ok? <==> ValidManifest(m)
    ensures r.Err? ==> Explains(m, r.error)
  {
    var header := CheckHeader(m);
    if header.Err? {
      return header;
    }
    var services := CheckServices(m);
    if services.Err? {
      return services;
    }
    ValidIsClosed(m);
    OrderIsExact(Dependencies(m));
    var order := ServiceOrder(Dependencies(m));
    if order.Err? {
      return Err(order.error);
    }
    var actions := CheckActions(m);
    if actions.Err? {
      return actions;
    }
    r := CheckTeardown(m);
  }

  /** Validity is not out of reach: one service with an image is enough. */
  lemma ValidManifestsExist(m: Manifest, name: string, service: Service)
    requires m.apiVersion == API_VERSION && !Blank(m.name) && !Blank(name) && !Blank(service.image)
    requires service.dependsOn == [] && service.resources.None?
    requires m.services == map[name := service] && m.actions == map[] && m.teardown.order == []
    ensures ValidManifest(m)
  {
    var g := Dependencies(m);
    assert Elements([name]) == g.Keys;
    TopologicalIsAcyclic(g, [name]);
    assert ValidService(m, name);
  }
}
