/** The GPU bindings of an evaluation action, and their attestation. */
module GpuBindings {
  import opened Prelude
  import opened Text
  import opened Checks
  import opened Model
  import opened GpuUuid
  import opened DependencyOrder
  import opened DependencyClosure

  datatype GpuBinding = GpuBinding(uuid: string, cudaToolkit: string, cdiDevice: string)

  function Bind(uuid: string, toolkitVersion: string): GpuBinding {
    GpuBinding(uuid, toolkitVersion, "nvidia.com/gpu=" + uuid)
  }

  /** The toolkit an action with GPUs needs. */
  predicate CudaToolkit(toolkit: Toolkit) {
    Lower(toolkit.name) == "cuda" && Trim(toolkit.version) != ""
  }

  // ----- What the closure selects -----

  /** Why a service of the closure is refused, if it is. */
  function Refusal(m: Manifest, service: Service): Option<CliError> {
    match service.GpuOf()
    case None => None
    case Some(gpu) =>
      if gpu.vendor != Nvidia then
        Some(Raise(ErrorKind.Unsupported, "gpu_vendor_unsupported"))
      else if !CudaToolkit(m.environment.toolkit) then
        Some(Raise(Validation, "toolkit_missing"))
      else if exists uuid :: uuid in gpu.uuids && Canonical(uuid).None? then
        Some(Raise(Validation, "gpu_selector_invalid"))
      else
        None
  }

  /** What is demanded of each service of the closure, in this order. */
  ghost function RefusalChecks(m: Manifest, service: Service): seq<Check> {
    [ Check(
        service.GpuOf().Some? ==> service.GpuOf().value.vendor == Nvidia,
        Raise(ErrorKind.Unsupported, "gpu_vendor_unsupported")),
      Check(
        service.GpuOf().Some? ==>
          NamesCuda(m.environment.toolkit.name) && !AllWhitespace(m.environment.toolkit.version),
        Raise(Validation, "toolkit_missing")),
      Check(
        service.GpuOf().Some? ==> forall u :: u in service.GpuOf().value.uuids ==> Canonical(u).Some?,
        Raise(Validation, "gpu_selector_invalid")) ]
  }

  /** "cuda" in any case. */
  predicate NamesCuda(name: string) {
    |name| == 4 && SameLetter(name[0], 'c') && SameLetter(name[1], 'u') && SameLetter(name[2], 'd')
    && SameLetter(name[3], 'a')
  }

  lemma CudaToolkitIff(toolkit: Toolkit)
    ensures CudaToolkit(toolkit) <==> NamesCuda(toolkit.name) && !AllWhitespace(toolkit.version)
  {
    LowerDecidesCase(toolkit.name, "cuda");
    assert Lower("cuda") == "cuda";
    TrimsToNothingIff(toolkit.version);
  }

  /** A service without GPUs is never refused; one with GPUs for the first check
      that fails. */
  lemma RefusalChecked(m: Manifest, service: Service)
    ensures Decides(RefusalChecks(m, service), Refusal(m, service))
  {
    CudaToolkitIff(m.environment.toolkit);
    var checks := RefusalChecks(m, service);
    if service.GpuOf().Some? {
      if service.GpuOf().value.vendor != Nvidia {
        assert FailsAt(checks, 0);
      } else if !CudaToolkit(m.environment.toolkit) {
        assert FailsAt(checks, 1);
      } else if Refusal(m, service).Some? {
        assert FailsAt(checks, 2);
      }
    }
  }

  predicate Selects(service: Service, uuid: string) {
    service.GpuOf().Some? && exists u :: u in service.GpuOf().value.uuids && Canonical(u) == Some(uuid)
  }

  /** `uuids` are the canonical GPUs of `names`, nothing more. */
  ghost predicate GpusOf(m: Manifest, names: seq<string>, uuids: set<string>)
    requires forall n :: n in names ==> n in m.services
  {
    forall uuid :: uuid in uuids <==> exists n :: n in names && Selects(m.services[n], uuid)
  }

  lemma GpusAreDetermined(m: Manifest, names: seq<string>, a: set<string>, b: set<string>)
    requires forall n :: n in names ==> n in m.services
    requires GpusOf(m, names, a) && GpusOf(m, names, b)
    ensures a == b
  {
    forall uuid
      ensures uuid in a <==> uuid in b
    {
    }
  }

  /** The bindings of a list of services: each canonical GPU they select, once,
      in sorted order, bound to the toolkit. */
  ghost predicate BindsExactly(m: Manifest, names: seq<string>, bindings: seq<GpuBinding>)
    requires forall n :: n in names ==> n in m.services
  {
    && bindings != []
    && GpusOf(m, names, Elements(Uuids(bindings)))
    && StrictlySorted(Uuids(bindings))
    && forall i :: 0 <= i < |bindings| ==>
         && IsCanonical(bindings[i].uuid) && bindings[i].cudaToolkit == m.environment.toolkit.version
         && bindings[i].cdiDevice == "nvidia.com/gpu=" + bindings[i].uuid
  }

  function Uuids(bindings: seq<GpuBinding>): (r: seq<string>)
    ensures |r| == |bindings| && forall i :: 0 <= i < |r| ==> r[i] == bindings[i].uuid
  {
    seq(|bindings|, i requires 0 <= i < |bindings| => bindings[i].uuid)
  }

  /** The service of a list that makes it fail: the first one refused. */
  ghost predicate RefusedBy(m: Manifest, names: seq<string>, error: CliError)
    requires forall n :: n in names ==> n in m.services
  {
    exists i :: 0 <= i < |names| && Refusal(m, m.services[names[i]]) == Some(error)
                && forall j :: 0 <= j < i ==> Refusal(m, m.services[names[j]]).None?
  }

  ghost predicate NoneRefused(m: Manifest, names: seq<string>)
    requires forall n :: n in names ==> n in m.services
  {
    forall n :: n in names ==> Refusal(m, m.services[n]).None?
  }

  // ----- action_gpu_bindings -----

  method CanonicalUuids(gpu: Gpu, before: set<string>) returns (r: Result<set<string>, CliError>)
    ensures r.Err? <==> exists uuid :: uuid in gpu.uuids && Canonical(uuid).None?
    ensures r.Err? ==> r.error == Raise(Validation, "gpu_selector_invalid")
    ensures r.Ok? ==> forall c :: c in r.value <==> c in before || exists u :: u in gpu.uuids && Canonical(u) == Some(c)
  {
    var uuids := before;
    var i := 0;
    while i < |gpu.uuids|
      invariant 0 <= i <= |gpu.uuids|
      invariant forall u :: u in gpu.uuids[..i] ==> Canonical(u).Some?
      invariant forall c :: c in uuids <==> c in before || exists u :: u in gpu.uuids[..i] && Canonical(u) == Some(c)
    {
      assert gpu.uuids[..i + 1] == gpu.uuids[..i] + [gpu.uuids[i]];
      match Canonical(gpu.uuids[i]) {
        case None =>
          return Err(Raise(Validation, "gpu_selector_invalid"));
        case Some(canonical) =>
          uuids := uuids + {canonical};
      }
      i := i + 1;
    }
    assert gpu.uuids[..i] == gpu.uuids;
    return Ok(uuids);
  }

  /** One turn of the loop over the closure. */
  method AddService(m: Manifest, service: Service, uuids: set<string>) returns (r: Result<set<string>, CliError>)
    ensures r.Err? <==> Refusal(m, service).Some?
    ensures r.Err? ==> Refusal(m, service) == Some(r.error)
    ensures r.Ok? ==> forall uuid :: uuid in r.value <==> uuid in uuids || Selects(service, uuid)
  {
    match service.GpuOf() {
      case None =>
        return Ok(uuids);
      case Some(gpu) =>
        if gpu.vendor != Nvidia {
          return Err(Raise(ErrorKind.Unsupported, "gpu_vendor_unsupported"));
        }
        if !CudaToolkit(m.environment.toolkit) {
          return Err(Raise(Validation, "toolkit_missing"));
        }
        r := CanonicalUuids(gpu, uuids);
    }
  }

  lemma GpusGrow(m: Manifest, names: seq<string>, name: string, before: set<string>, after: set<string>)
    requires (forall n :: n in names ==> n in m.services) && name in m.services
    requires GpusOf(m, names, before) && NoneRefused(m, names) && Refusal(m, m.services[name]).None?
    requires forall uuid :: uuid in after <==> uuid in before || Selects(m.services[name], uuid)
    ensures GpusOf(m, names + [name], after) && NoneRefused(m, names + [name])
  {
    var more := names + [name];
    assert forall n :: n in more <==> n in names || n == name;
    forall uuid
      ensures uuid in after <==> exists n :: n in more && Selects(m.services[n], uuid)
    {
      if uuid in before {
        var n :| n in names && Selects(m.services[n], uuid);
        assert n in more;
      } else if Selects(m.services[name], uuid) {
        assert name in more;
      }
    }
  }

  lemma FirstRefusal(m: Manifest, names: seq<string>, i: nat, error: CliError)
    requires forall n :: n in names ==> n in m.services
    requires i < |names| && NoneRefused(m, names[..i]) && Refusal(m, m.services[names[i]]) == Some(error)
    ensures RefusedBy(m, names, error)
  {
    forall j | 0 <= j < i
      ensures Refusal(m, m.services[names[j]]).None?
    {
      assert names[j] in names[..i];
    }
  }

  method ActionGpuBindings(m: Manifest, root: string) returns (r: Result<(seq<string>, seq<GpuBinding>), CliError>)
    requires Closed(Dependencies(m)) && root in m.services
    ensures var closure := Closure(Dependencies(m), root);
            && (forall n :: n in closure ==> n in m.services)
            && (r.Ok? ==> r.value.0 == closure && NoneRefused(m, closure) && BindsExactly(m, closure, r.value.1))
            && (r.Err? ==> RefusedBy(m, closure, r.error)
                           || (r.error == Raise(Validation, "gpu_binding_missing") && NoneRefused(m, closure)
                              && GpusOf(m, closure, {})))
  {
    var closure := CollectClosure(Dependencies(m), root);
    ClosureNamesServices(m, root);
    var selected := SelectUuids(m, closure);
    if selected.Err? {
      return Err(selected.error);
    }
    var uuids := selected.value;
    if uuids == {} {
      return Err(Raise(Validation, "gpu_binding_missing"));
    }
    var bindings := BindAll(SortedKeys(uuids), m.environment.toolkit.version);
    BindingsAreExact(m, closure, uuids, bindings);
    return Ok((closure, bindings));
  }

  method SelectUuids(m: Manifest, closure: seq<string>) returns (r: Result<set<string>, CliError>)
    requires forall n :: n in closure ==> n in m.services
    ensures r.Ok? ==> NoneRefused(m, closure) && GpusOf(m, closure, r.value)
    ensures r.Err? ==> RefusedBy(m, closure, r.error)
  {
    var uuids: set<string> := {};
    for i := 0 to |closure|
      invariant NoneRefused(m, closure[..i]) && GpusOf(m, closure[..i], uuids)
    {
      var more := AddService(m, m.services[closure[i]], uuids);
      if more.Err? {
        FirstRefusal(m, closure, i, more.error);
        return Err(more.error);
      }
      GpusGrow(m, closure[..i], closure[i], uuids, more.value);
      TakeNext(closure, i);
      uuids := more.value;
    }
    TakeAll(closure);
    return Ok(uuids);
  }

  function BindAll(uuids: seq<string>, toolkitVersion: string): (r: seq<GpuBinding>)
    ensures Uuids(r) == uuids
    ensures forall i :: 0 <= i < |r| ==> r[i] == Bind(uuids[i], toolkitVersion)
  {
    var r := seq(|uuids|, i requires 0 <= i < |uuids| => Bind(uuids[i], toolkitVersion));
    assert Uuids(r) == uuids;
    r
  }

  lemma ClosureNamesServices(m: Manifest, root: string)
    requires Closed(Dependencies(m)) && root in m.services
    ensures forall n :: n in Closure(Dependencies(m), root) ==> n in m.services
  {
    var g := Dependencies(m);
    CollectAdds(g, root, NOTHING_SEEN);
    var r := Collect(g, root, NOTHING_SEEN);
    assert r.output[0..] == r.output;
  }

  lemma BindingsAreExact(m: Manifest, names: seq<string>, uuids: set<string>, bindings: seq<GpuBinding>)
    requires forall n :: n in names ==> n in m.services
    requires GpusOf(m, names, uuids) && uuids != {}
    requires bindings == BindAll(SortedKeys(uuids), m.environment.toolkit.version)
    ensures BindsExactly(m, names, bindings)
  {
    var sorted := SortedKeys(uuids);
    assert Uuids(bindings) == sorted;
    forall i | 0 <= i < |bindings|
      ensures IsCanonical(bindings[i].uuid)
    {
      assert sorted[i] in Elements(sorted);
      var n :| n in names && Selects(m.services[n], sorted[i]);
      var u :| u in m.services[n].GpuOf().value.uuids && Canonical(u) == Some(sorted[i]);
      CanonicalIsFixedPoint(u);
    }
  }

  // ----- Attestation -----

  /** The set-plus-length comparison of `validate_evaluation_result`. */
  predicate Attested(bindings: seq<GpuBinding>, gpuUuids: seq<string>) {
    Elements(Uuids(bindings)) == Elements(gpuUuids) && |Elements(gpuUuids)| == |gpuUuids|
  }

  lemma {:induction false} MultisetOfDistinct(s: seq<string>)
    requires NoDuplicates(s)
    ensures multiset(s) == multiset(Elements(s))
  {
    if s != [] {
      var front := s[..|s| - 1];
      var last := s[|s| - 1];
      assert s == front + [last];
      MultisetOfDistinct(front);
      assert last !in front;
      assert Elements(s) == Elements(front) + {last};
    } else {
      assert Elements(s) == {};
    }
  }

  /** Sorted bindings are attested exactly by the permutations of their UUIDs. */
  lemma AttestedIffPermutation(bindings: seq<GpuBinding>, gpuUuids: seq<string>)
    requires StrictlySorted(Uuids(bindings))
    ensures Attested(bindings, gpuUuids) <==> multiset(gpuUuids) == multiset(Uuids(bindings))
  {
    var expected := Uuids(bindings);
    SortedHasNoDuplicates(expected);
    MultisetOfDistinct(expected);
    NoDuplicatesCardinality(expected);
    NoDuplicatesCardinality(gpuUuids);
    if Attested(bindings, gpuUuids) {
      MultisetOfDistinct(gpuUuids);
    }
    if multiset(gpuUuids) == multiset(expected) {
      forall u
        ensures u in Elements(gpuUuids) <==> u in Elements(expected)
      {
        assert u in gpuUuids <==> u in multiset(gpuUuids);
        assert u in expected <==> u in multiset(expected);
      }
      assert Elements(gpuUuids) == Elements(expected);
      assert |gpuUuids| == |multiset(gpuUuids)| && |expected| == |multiset(expected)|;
    }
  }
}
