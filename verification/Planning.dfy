/** `plan`: normalise the GPU selectors, canonicalise, hash. */
module Planning {
  import opened Prelude
  import opened Text
  import opened Model
  import opened GpuUuid
  import opened CanonicalJson
  import opened Evidence
  import opened Validation

  // ----- normalize_gpu_uuids -----

  predicate NormalizableService(service: Service) {
    service.GpuOf().Some? ==> forall u :: u in service.GpuOf().value.uuids ==> Canonical(u).Some?
  }

  predicate Normalizable(m: Manifest) {
    forall n :: n in m.services ==> NormalizableService(m.services[n])
  }

  function NormalizedUuids(uuids: seq<string>): (r: seq<string>)
    ensures |r| == |uuids|
    ensures forall i :: 0 <= i < |r| ==>
              r[i] == if Canonical(uuids[i]).Some? then Canonical(uuids[i]).value else uuids[i]
  {
    seq(|uuids|, i requires 0 <= i < |uuids| =>
      if Canonical(uuids[i]).Some? then Canonical(uuids[i]).value else uuids[i])
  }

  function WithUuids(service: Service, uuids: seq<string>): Service
    requires service.GpuOf().Some?
  {
    service.(resources := Some(service.resources.value.(gpu := Some(service.GpuOf().value.(uuids := uuids)))))
  }

  function NormalizedService(service: Service): Service {
    if service.GpuOf().None? then service else WithUuids(service, NormalizedUuids(service.GpuOf().value.uuids))
  }

  function Normalized(m: Manifest): (r: Manifest)
    ensures r.services.Keys == m.services.Keys
  {
    m.(services := map n | n in m.services :: NormalizedService(m.services[n]))
  }

  /** The same service, its GPU selectors in canonical spelling. */
  ghost predicate RespelledService(a: Service, b: Service) {
    && b.image == a.image && b.dependsOn == a.dependsOn && b.command == a.command && b.environment == a.environment
    && b.healthCheck == a.healthCheck
    && match (a.resources, b.resources)
       case (None, None) => true
       case (Some(r), Some(s)) =>
         s.cpuMillis == r.cpuMillis && s.memoryBytes == r.memoryBytes && RespelledGpu(r.gpu, s.gpu)
       case _ => false
  }

  ghost predicate RespelledGpu(a: Option<Gpu>, b: Option<Gpu>) {
    match (a, b)
    case (None, None) => true
    case (Some(g), Some(h)) =>
      && h.vendor == g.vendor && |h.uuids| == |g.uuids|
      && forall i :: 0 <= i < |g.uuids| ==> Canonical(g.uuids[i]) == Some(h.uuids[i])
    case _ => false
  }

  /** The same manifest, its GPU selectors in canonical spelling. */
  ghost predicate Respelled(m: Manifest, n: Manifest) {
    && n.apiVersion == m.apiVersion && n.name == m.name && n.labels == m.labels && n.environment == m.environment
    && n.runtime == m.runtime && n.providers == m.providers && n.actions == m.actions && n.artifacts == m.artifacts
    && n.teardown == m.teardown && n.provenance == m.provenance
    && n.services.Keys == m.services.Keys
    && forall s :: s in m.services ==> RespelledService(m.services[s], n.services[s])
  }

  lemma NormalizedServiceIsRespelled(service: Service)
    requires NormalizableService(service)
    ensures RespelledService(service, NormalizedService(service))
  {
  }

  /** Normalising respells the GPU selectors and changes nothing else. */
  lemma NormalizedIsRespelled(m: Manifest)
    requires Normalizable(m)
    ensures Respelled(m, Normalized(m))
  {
    forall s | s in m.services
      ensures RespelledService(m.services[s], Normalized(m).services[s])
    {
      NormalizedServiceIsRespelled(m.services[s]);
    }
  }

  lemma RewriteNextUuid(uuids: seq<string>, i: nat)
    requires i < |uuids|
    ensures var rewritten := NormalizedUuids(uuids[..i]) + uuids[i..];
            && rewritten[i] == uuids[i]
            && (Canonical(uuids[i]).Some? ==>
                  rewritten[i := Canonical(uuids[i]).value] == NormalizedUuids(uuids[..i + 1]) + uuids[i + 1..])
  {
  }

  method NormalizeUuids(uuids: seq<string>) returns (r: Result<seq<string>, CliError>)
    ensures r.Ok? <==> forall u :: u in uuids ==> Canonical(u).Some?
    ensures r.Ok? ==> r.value == NormalizedUuids(uuids)
    ensures r.Err? ==> r.error == Raise(ErrorKind.Validation, "gpu_selector_invalid")
  {
    var rewritten := uuids;
    for i := 0 to |uuids|
      invariant rewritten == NormalizedUuids(uuids[..i]) + uuids[i..]
      invariant forall u :: u in uuids[..i] ==> Canonical(u).Some?
    {
      RewriteNextUuid(uuids, i);
      var canonical := Canonical(rewritten[i]);
      if canonical.None? {
        return Err(Raise(ErrorKind.Validation, "gpu_selector_invalid"));
      }
      rewritten := rewritten[i := canonical.value];
      TakeNext(uuids, i);
    }
    TakeAll(uuids);
    return Ok(rewritten);
  }

  method NormalizeService(service: Service) returns (r: Result<Service, CliError>)
    ensures r.Ok? <==> NormalizableService(service)
    ensures r.Ok? ==> r.value == NormalizedService(service)
    ensures r.Err? ==> r.error == Raise(ErrorKind.Validation, "gpu_selector_invalid")
  {
    if service.GpuOf().None? {
      return Ok(service);
    }
    var uuids := NormalizeUuids(service.GpuOf().value.uuids);
    if uuids.Err? {
      return Err(uuids.error);
    }
    return Ok(WithUuids(service, uuids.value));
  }

  method NormalizeGpuUuids(m: Manifest) returns (r: Result<Manifest, CliError>)
    ensures r.Ok? <==> Normalizable(m)
    ensures r.Ok? ==> r.value == Normalized(m)
    ensures r.Err? ==> r.error == Raise(ErrorKind.Validation, "gpu_selector_invalid")
  {
    var names := KeysInOrder(m.services.Keys);
    var services := m.services;
    NothingRewritten(m, names);
    for i := 0 to |names|
      invariant services == Rewritten(m.services, Elements(names[..i]))
      invariant NormalizableAmong(m, names[..i])
    {
      var next := NormalizeNext(m, names, i, services);
      if next.Err? {
        return Err(next.error);
      }
      services := next.value;
    }
    AllRewritten(m, names);
    return Ok(m.(services := services));
  }

  /** One turn of the loop over the services. */
  method NormalizeNext(m: Manifest, names: seq<string>, i: nat, services: map<string, Service>)
    returns (r: Result<map<string, Service>, CliError>)
    requires StrictlySorted(names) && i < |names| && names[i] in m.services
    requires services == Rewritten(m.services, Elements(names[..i])) && NormalizableAmong(m, names[..i])
    ensures r.Ok? ==> r.value == Rewritten(m.services, Elements(names[..i + 1])) && NormalizableAmong(m, names[..i + 1])
    ensures r.Err? ==> !Normalizable(m) && r.error == Raise(ErrorKind.Validation, "gpu_selector_invalid")
  {
    RewriteNext(m, names, i);
    var service := NormalizeService(services[names[i]]);
    if service.Err? {
      return Err(service.error);
    }
    return Ok(services[names[i] := service.value]);
  }

  /** The services once those in `done` have been rewritten. */
  ghost function Rewritten(services: map<string, Service>, done: set<string>): map<string, Service> {
    map n | n in services :: if n in done then NormalizedService(services[n]) else services[n]
  }

  ghost predicate NormalizableAmong(m: Manifest, names: seq<string>) {
    forall n :: n in names ==> n in m.services && NormalizableService(m.services[n])
  }

  lemma NothingRewritten(m: Manifest, names: seq<string>)
    ensures m.services == Rewritten(m.services, Elements(names[..0])) && NormalizableAmong(m, names[..0])
  {
  }

  lemma AllRewritten(m: Manifest, names: seq<string>)
    requires (forall n :: n in names <==> n in m.services) && NormalizableAmong(m, names[..|names|])
    ensures m.(services := Rewritten(m.services, Elements(names[..|names|]))) == Normalized(m) && Normalizable(m)
  {
    TakeAll(names);
  }

  /** One turn: the service is still as declared, and rewriting it is the next step. */
  lemma RewriteNext(m: Manifest, names: seq<string>, i: nat)
    requires StrictlySorted(names) && i < |names| && names[i] in m.services
    ensures var done, name := Rewritten(m.services, Elements(names[..i])), names[i];
            && name in done && done[name] == m.services[name]
            && Rewritten(m.services, Elements(names[..i + 1])) == done[name := NormalizedService(m.services[name])]
    ensures NormalizableAmong(m, names[..i]) && NormalizableService(m.services[names[i]]) ==>
              NormalizableAmong(m, names[..i + 1])
  {
    SortedHasNoDuplicates(names);
    TakeNext(names, i);
    TakeNextElements(names, i);
    assert names[i] !in Elements(names[..i]);
  }

  // ----- plan -----

  /** The serialisation libraries, as far as `plan` sees them. */
  datatype Codec = Codec(
    encode: Manifest -> Json,
    decode: Json -> Result<Manifest, CliError>,
    bytes: Json -> seq<Byte>,
    digest: Digest)

  /** Decoding inverts encoding and does not look at key order. */
  ghost predicate Faithful(c: Codec) {
    && (forall m :: c.decode(c.encode(m)) == Ok(m))
    && (forall v, w :: Same(v, w) ==> c.decode(v) == c.decode(w))
  }

  datatype Plan = Plan(schemaVersion: string, manifestSha256: string, normalized: Manifest)

  function Digested(c: Codec, m: Manifest): string {
    c.digest(c.bytes(Canonicalize(c.encode(m))))
  }

  lemma DigestedIsHex(c: Codec, m: Manifest)
    requires PrintsHex(c.digest)
    ensures IsSha256Hex(Digested(c, m))
  {
    assert IsSha256Hex(c.digest(c.bytes(Canonicalize(c.encode(m)))));
  }

  method MakePlan(m: Manifest, c: Codec) returns (r: Result<Plan, CliError>)
    ensures r.Ok? ==> Normalizable(m)
    ensures Faithful(c) && Normalizable(m) ==> r == Ok(PlanOf(c, m)) && PlansAs(c, m, r.value)
    ensures !Normalizable(m) ==> r == Err(Raise(ErrorKind.Validation, "gpu_selector_invalid"))
  {
    var manifest :- NormalizeGpuUuids(m);
    var value := Canonicalize(c.encode(manifest));
    CanonicalizeIsCanonical(c.encode(manifest), value);
    PlanIsRespelled(c, m);
    var digest := c.digest(c.bytes(value));
    var normalized :- c.decode(value);
    return Ok(Plan(API_VERSION, digest, normalized));
  }

  /** The plan of a normalisable manifest. */
  function PlanOf(c: Codec, m: Manifest): Plan {
    Plan(API_VERSION, Digested(c, Normalized(m)), Normalized(m))
  }

  // ----- What planning guarantees -----

  /** A plan names the respelled manifest and the digest of its canonical JSON. */
  ghost predicate PlansAs(c: Codec, m: Manifest, plan: Plan) {
    && plan.schemaVersion == "phenocompose.dev/v0" && Respelled(m, plan.normalized)
    && plan.manifestSha256 == c.digest(c.bytes(Canonicalize(c.encode(plan.normalized))))
  }

  lemma PlanIsRespelled(c: Codec, m: Manifest)
    requires Normalizable(m)
    ensures PlansAs(c, m, PlanOf(c, m))
  {
    NormalizedIsRespelled(m);
  }

  lemma NormalizedUuidsIdempotent(uuids: seq<string>)
    requires forall u :: u in uuids ==> Canonical(u).Some?
    ensures forall u :: u in NormalizedUuids(uuids) ==> Canonical(u) == Some(u)
    ensures NormalizedUuids(NormalizedUuids(uuids)) == NormalizedUuids(uuids)
  {
    var once := NormalizedUuids(uuids);
    forall i | 0 <= i < |uuids|
      ensures Canonical(once[i]) == Some(once[i])
    {
      assert uuids[i] in uuids;
      CanonicalIsFixedPoint(uuids[i]);
    }
    assert NormalizedUuids(once) == once;
  }

  lemma ServiceNormalizationIsIdempotent(service: Service)
    requires NormalizableService(service)
    ensures NormalizableService(NormalizedService(service))
            && NormalizedService(NormalizedService(service)) == NormalizedService(service)
  {
    if service.GpuOf().Some? {
      NormalizedUuidsIdempotent(service.GpuOf().value.uuids);
    }
  }

  lemma NormalizationIsIdempotent(m: Manifest)
    requires Normalizable(m)
    ensures Normalizable(Normalized(m)) && Normalized(Normalized(m)) == Normalized(m)
  {
    var once := Normalized(m);
    forall n | n in m.services
      ensures NormalizableService(once.services[n]) && NormalizedService(once.services[n]) == once.services[n]
    {
      ServiceNormalizationIsIdempotent(m.services[n]);
    }
    assert Normalized(once).services == once.services;
  }

  lemma NormalizationKeepsService(m: Manifest, n: string)
    requires n in m.services && ValidService(m, n)
    ensures NormalizableService(m.services[n]) && ValidService(Normalized(m), n)
  {
    if m.services[n].GpuOf().Some? {
      NormalizedUuidsIdempotent(m.services[n].GpuOf().value.uuids);
    }
  }

  lemma NormalizationKeepsDependencies(m: Manifest)
    ensures Dependencies(Normalized(m)) == Dependencies(m)
  {
    forall n | n in m.services
      ensures NormalizedService(m.services[n]).dependsOn == m.services[n].dependsOn
    {
    }
  }

  lemma NormalizationKeepsServices(m: Manifest)
    requires ServicesFine(m)
    ensures Normalizable(m) && ServicesFine(Normalized(m))
    ensures Dependencies(Normalized(m)) == Dependencies(m)
  {
    NormalizationKeepsDependencies(m);
    forall n | n in m.services
      ensures NormalizableService(m.services[n])
    {
      NormalizationKeepsService(m, n);
    }
    forall n | n in Normalized(m).services
      ensures ValidService(Normalized(m), n)
    {
      NormalizationKeepsService(m, n);
    }
  }

  lemma NormalizationKeepsActions(m: Manifest)
    requires ActionsFine(m)
    ensures ActionsFine(Normalized(m))
  {
    forall a | a in m.actions
      ensures ValidAction(Normalized(m), m.actions[a])
    {
      assert ValidAction(m, m.actions[a]);
    }
  }

  lemma NormalizationKeepsValidity(m: Manifest)
    requires ValidManifest(m)
    ensures Normalizable(m) && ValidManifest(Normalized(m))
  {
    NormalizationKeepsServices(m);
    NormalizationKeepsActions(m);
    var n :| n in m.services;
    assert n in Normalized(m).services;
  }

  /** A validated manifest always plans, and its normalised form is again valid
      and plans to the same digest and the same normalised form. */
  lemma PlanningIsIdempotent(m: Manifest, c: Codec)
    requires ValidManifest(m)
    ensures Normalizable(m)
    ensures ValidManifest(PlanOf(c, m).normalized) && Normalizable(PlanOf(c, m).normalized)
    ensures PlanOf(c, PlanOf(c, m).normalized) == PlanOf(c, m)
  {
    NormalizationKeepsValidity(m);
    NormalizationIsIdempotent(m);
  }

  // ----- Spelling -----

  predicate SameSelectors(a: seq<string>, b: seq<string>) {
    |a| == |b| && forall i :: 0 <= i < |a| ==> SameGpu(a[i], b[i])
  }

  predicate SameServiceSpelling(a: Service, b: Service) {
    if a.GpuOf().Some? && b.GpuOf().Some? then
      SameSelectors(a.GpuOf().value.uuids, b.GpuOf().value.uuids) && WithUuids(a, []) == WithUuids(b, [])
    else
      a == b
  }

  /** Equal except for the prefix and hex case of GPU selectors. */
  predicate SameUpToSpelling(m: Manifest, m': Manifest) {
    && m.services.Keys == m'.services.Keys
    && m.(services := map[]) == m'.(services := map[])
    && forall n :: n in m.services ==> SameServiceSpelling(m.services[n], m'.services[n])
  }

  lemma SelectorsDecide(a: seq<string>, b: seq<string>)
    requires forall u :: u in a ==> Canonical(u).Some?
    requires forall u :: u in b ==> Canonical(u).Some?
    ensures NormalizedUuids(a) == NormalizedUuids(b) <==> SameSelectors(a, b)
  {
    if |a| == |b| {
      forall i | 0 <= i < |a|
        ensures NormalizedUuids(a)[i] == NormalizedUuids(b)[i] <==> SameGpu(a[i], b[i])
      {
        assert a[i] in a && b[i] in b;
        CanonicalDecidesSameGpu(a[i], b[i]);
      }
    } else {
      assert |NormalizedUuids(a)| != |NormalizedUuids(b)|;
    }
  }

  lemma ServiceDecides(a: Service, b: Service)
    requires NormalizableService(a) && NormalizableService(b)
    ensures NormalizedService(a) == NormalizedService(b) <==> SameServiceSpelling(a, b)
  {
    if a.GpuOf().Some? && b.GpuOf().Some? {
      var ua, ub := a.GpuOf().value.uuids, b.GpuOf().value.uuids;
      SelectorsDecide(ua, ub);
      var na, nb := NormalizedService(a), NormalizedService(b);
      assert WithUuids(na, []) == WithUuids(a, []) && WithUuids(nb, []) == WithUuids(b, []);
      assert WithUuids(WithUuids(a, []), NormalizedUuids(ua)) == na;
      assert WithUuids(WithUuids(b, []), NormalizedUuids(ub)) == nb;
    }
  }

  /** Two manifests normalise alike exactly when only the spelling of their GPU
      selectors differs. */
  lemma NormalizationDecidesSpelling(m: Manifest, m': Manifest)
    requires Normalizable(m) && Normalizable(m')
    ensures Normalized(m) == Normalized(m') <==> SameUpToSpelling(m, m')
  {
    forall n | n in m.services && n in m'.services
      ensures NormalizedService(m.services[n]) == NormalizedService(m'.services[n])
              <==> SameServiceSpelling(m.services[n], m'.services[n])
    {
      ServiceDecides(m.services[n], m'.services[n]);
    }
    if Normalized(m) == Normalized(m') {
      assert Normalized(m).services.Keys == Normalized(m').services.Keys;
      assert m.(services := map[]) == Normalized(m).(services := map[]);
      assert m'.(services := map[]) == Normalized(m').(services := map[]);
      forall n | n in m.services
        ensures SameServiceSpelling(m.services[n], m'.services[n])
      {
        assert Normalized(m).services[n] == Normalized(m').services[n];
      }
    }
    if SameUpToSpelling(m, m') {
      assert Normalized(m).services == Normalized(m').services;
      assert Normalized(m) == m.(services := map[]).(services := Normalized(m).services);
      assert Normalized(m') == m'.(services := map[]).(services := Normalized(m').services);
    }
  }

  /** The document a plan's digest is taken of. */
  function Document(c: Codec, m: Manifest): Json {
    Canonicalize(c.encode(Normalized(m)))
  }

  /** The two manifests themselves are a collision: their documents differ and
      hash alike. */
  ghost predicate Collide(c: Codec, m: Manifest, m': Manifest) {
    Document(c, m) != Document(c, m') && c.digest(c.bytes(Document(c, m))) == c.digest(c.bytes(Document(c, m')))
  }

  lemma DocumentDecidesSpelling(m: Manifest, m': Manifest, c: Codec)
    requires Normalizable(m) && Normalizable(m') && Faithful(c)
    ensures Document(c, m) == Document(c, m') <==> SameUpToSpelling(m, m')
  {
    NormalizationDecidesSpelling(m, m');
    var v, w := c.encode(Normalized(m)), c.encode(Normalized(m'));
    CanonicalizeIsCanonical(v, w);
    assert c.decode(v) == Ok(Normalized(m)) && c.decode(w) == Ok(Normalized(m'));
  }

  /** Respelling GPU selectors never changes a plan, and two plans share a digest
      only by respelling or by colliding themselves. */
  lemma DigestDecidesSpelling(m: Manifest, m': Manifest, c: Codec)
    requires Normalizable(m) && Normalizable(m') && Faithful(c)
    ensures SameUpToSpelling(m, m') ==> PlanOf(c, m) == PlanOf(c, m')
    ensures PlanOf(c, m).manifestSha256 == PlanOf(c, m').manifestSha256
            <==> SameUpToSpelling(m, m') || Collide(c, m, m')
  {
    NormalizationDecidesSpelling(m, m');
    DocumentDecidesSpelling(m, m', c);
  }
}
