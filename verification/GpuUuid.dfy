/** GPU selectors and their canonical spelling. */
module GpuUuid {
  import opened Prelude
  import opened Text

  function Body(value: string): string {
    if "GPU-" <= value || "gpu-" <= value then value[4..] else value
  }

  predicate IsDashIndex(i: nat) {
    i == 8 || i == 13 || i == 18 || i == 23
  }

  /** The UUID text format of section 4 of RFC 9562. */
  predicate IsUuid(body: string) {
    |body| == 36 && forall i :: 0 <= i < 36 ==> if IsDashIndex(i) then body[i] == '-' else IsHexDigit(body[i])
  }

  function Canonical(value: string): Option<string> {
    if IsUuid(Body(value)) then Some("GPU-" + Lower(Body(value))) else None
  }

  predicate IsCanonical(value: string) {
    Canonical(value) == Some(value)
  }

  lemma LowerFacts(s: string)
    ensures Lower(Lower(s)) == Lower(s)
    ensures IsUuid(s) ==> IsUuid(Lower(s))
  {
    assert Lower(Lower(s)) == Lower(s);
    if IsUuid(s) {
      forall i | 0 <= i < 36
        ensures if IsDashIndex(i) then Lower(s)[i] == '-' else IsHexDigit(Lower(s)[i])
      {
        assert Lower(s)[i] == LowerChar(s[i]);
      }
    }
  }

  /** Canonical selectors are the fixed points: `GPU-` and lower-case digits. */
  lemma CanonicalIsFixedPoint(value: string)
    ensures Canonical(value).Some? ==> IsCanonical(Canonical(value).value)
    ensures IsCanonical(value) <==> "GPU-" <= value && IsUuid(value[4..]) && Lower(value[4..]) == value[4..]
  {
    LowerFacts(Body(value));
    if Canonical(value).Some? {
      var c := Canonical(value).value;
      assert c[..4] == "GPU-" && c[4..] == Lower(Body(value));
      assert Body(c) == c[4..];
    }
    if "GPU-" <= value {
      assert value == "GPU-" + value[4..];
    }
    if IsCanonical(value) {
      assert value == "GPU-" + Lower(Body(value));
      assert value[..4] == "GPU-" && value[4..] == Lower(Body(value));
    }
  }

  /** Two selectors name the same GPU when their bodies differ only in case. */
  predicate SameGpu(a: string, b: string) {
    Lower(Body(a)) == Lower(Body(b))
  }

  /** Among selectors the CLI accepts, canonical spellings agree exactly when
      prefix and hex case are the only differences. */
  lemma CanonicalDecidesSameGpu(a: string, b: string)
    requires Canonical(a).Some? && Canonical(b).Some?
    ensures Canonical(a) == Canonical(b) <==> SameGpu(a, b)
    ensures SameGpu(a, Canonical(a).value)
  {
    LowerFacts(Body(a));
    CanonicalIsFixedPoint(a);
    assert ("GPU-" + Lower(Body(a)))[4..] == Lower(Body(a));
    assert ("GPU-" + Lower(Body(b)))[4..] == Lower(Body(b));
  }

  // ----- Which selectors are accepted -----

  /** The five groups of a UUID, in lower case. */
  datatype Groups = Groups(a: string, b: string, c: string, d: string, e: string)

  predicate LowerHex(s: string, n: nat) {
    |s| == n && forall i :: 0 <= i < n ==> '0' <= s[i] <= '9' || 'a' <= s[i] <= 'f'
  }

  predicate IsUuidGroups(g: Groups) {
    LowerHex(g.a, 8) && LowerHex(g.b, 4) && LowerHex(g.c, 4) && LowerHex(g.d, 4) && LowerHex(g.e, 12)
  }

  function Joined(g: Groups): string {
    g.a + ("-" + (g.b + ("-" + (g.c + ("-" + (g.d + ("-" + g.e)))))))
  }

  /** The value spells the UUID in any case, with one of the two prefixes or none. */
  predicate Spells(value: string, g: Groups) {
    || UpToCase(value, Joined(g))
    || (("GPU-" <= value || "gpu-" <= value) && UpToCase(value[4..], Joined(g)))
  }

  lemma JoinedIsUuid(g: Groups)
    requires IsUuidGroups(g)
    ensures IsUuid(Joined(g)) && Lower(Joined(g)) == Joined(g)
  {
    var s := Joined(g);
    assert |s| == 36;
    assert s[8] == '-' && s[13] == '-' && s[18] == '-' && s[23] == '-';
    assert s[..8] == g.a && s[9..13] == g.b && s[14..18] == g.c && s[19..23] == g.d && s[24..] == g.e;
    forall i | 0 <= i < 36 && !IsDashIndex(i)
      ensures '0' <= s[i] <= '9' || 'a' <= s[i] <= 'f'
    {
      assert i < 8 ==> s[i] == g.a[i];
      assert 8 < i < 13 ==> s[i] == g.b[i - 9];
      assert 13 < i < 18 ==> s[i] == g.c[i - 14];
      assert 18 < i < 23 ==> s[i] == g.d[i - 19];
      assert 23 < i ==> s[i] == g.e[i - 24];
    }
    assert Lower(s) == s;
  }

  /** A lower-case UUID falls into its groups. */
  lemma UuidIsJoined(s: string) returns (g: Groups)
    requires IsUuid(s) && Lower(s) == s
    ensures IsUuidGroups(g) && Joined(g) == s
  {
    g := Groups(s[..8], s[9..13], s[14..18], s[19..23], s[24..]);
    forall i | 0 <= i < 36 && !IsDashIndex(i)
      ensures '0' <= s[i] <= '9' || 'a' <= s[i] <= 'f'
    {
      assert s[i] == LowerChar(s[i]) && IsHexDigit(s[i]);
    }
    assert Joined(g) == s;
  }

  /** `Spells` tells the body of a selector. */
  lemma SpelledBody(value: string, g: Groups)
    requires IsUuidGroups(g)
    ensures Spells(value, g) <==> UpToCase(Body(value), Joined(g))
  {
    JoinedIsUuid(g);
    if UpToCase(value, Joined(g)) {
      assert SameLetter(value[0], Joined(g)[0]) && IsHexDigit(Joined(g)[0]);
      assert value[0] != 'G' && value[0] != 'g';
    }
    if "GPU-" <= value || "gpu-" <= value {
      assert value[0] == 'G' || value[0] == 'g';
    }
  }

  lemma BodyIs(value: string, g: Groups)
    requires IsUuidGroups(g) && UpToCase(Body(value), Joined(g))
    ensures Canonical(value) == Some("GPU-" + Joined(g))
  {
    JoinedIsUuid(g);
    LowerDecidesCase(Body(value), Joined(g));
    var body, s := Body(value), Joined(g);
    forall i | 0 <= i < 36
      ensures if IsDashIndex(i) then body[i] == '-' else IsHexDigit(body[i])
    {
      assert SameLetter(body[i], s[i]);
    }
  }

  /** A selector is accepted exactly when it spells a UUID in the 8-4-4-4-12 text
      form, and its canonical form is that UUID in lower case behind `GPU-`. */
  lemma CanonicalIff(value: string, canonical: string)
    ensures Canonical(value) == Some(canonical)
            <==> exists g :: IsUuidGroups(g) && Spells(value, g) && canonical == "GPU-" + Joined(g)
  {
    if Canonical(value) == Some(canonical) {
      LowerFacts(Body(value));
      var g := UuidIsJoined(Lower(Body(value)));
      LowerDecidesCase(Body(value), Joined(g));
      SpelledBody(value, g);
    }
    forall g | IsUuidGroups(g) && Spells(value, g)
      ensures Canonical(value) == Some("GPU-" + Joined(g))
    {
      SpelledBody(value, g);
      BodyIs(value, g);
    }
  }
}
