/** Bounded, hashed output evidence. Captured output is a UTF-8 string, kept
    here as its bytes. */
module Evidence {
  import opened Prelude
  import opened Text
  import opened Checks

  type Byte = b: nat | b < 256

  /** SHA-256 in lower-case hexadecimal, as `format!("{:x}", ...)` prints it. */
  type Digest = seq<Byte> -> string

  // ----- UTF-8, sections 3 and 4 of RFC 3629 -----

  predicate IsTail(b: Byte) {
    0x80 <= b <= 0xBF
  }

  predicate TailsAt(s: seq<Byte>, from: nat, to: nat) {
    to <= |s| && forall i :: from <= i < to ==> IsTail(s[i])
  }

  /** The length of the character at the start of `s`; 0 if there is none. */
  function CharacterLength(s: seq<Byte>): nat {
    if s == [] then
      0
    else if s[0] <= 0x7F then
      1
    else if 0xC2 <= s[0] <= 0xDF && TailsAt(s, 1, 2) then
      2
    else if 0xE0 <= s[0] <= 0xEF && TailsAt(s, 1, 3) && (s[0] == 0xE0 ==> s[1] >= 0xA0)
      && (s[0] == 0xED ==> s[1] <= 0x9F) then
      3
    else if 0xF0 <= s[0] <= 0xF4 && TailsAt(s, 1, 4) && (s[0] == 0xF0 ==> s[1] >= 0x90)
      && (s[0] == 0xF4 ==> s[1] <= 0x8F) then
      4
    else
      0
  }

  lemma CharacterBounds(s: seq<Byte>)
    ensures CharacterLength(s) <= |s| && CharacterLength(s) <= 4
    ensures CharacterLength(s) > 0 ==> !IsTail(s[0]) && TailsAt(s, 1, CharacterLength(s))
  {
  }

  predicate ValidUtf8(s: seq<Byte>)
    decreases |s|
  {
    s == [] || (CharacterBounds(s); CharacterLength(s) > 0 && ValidUtf8(s[CharacterLength(s)..]))
  }

  /** `str::is_char_boundary` */
  predicate IsCharBoundary(s: seq<Byte>, i: nat) {
    i == 0 || i == |s| || (i < |s| && !IsTail(s[i]))
  }

  lemma CharacterOfPrefix(s: seq<Byte>, i: nat)
    requires CharacterLength(s) <= i <= |s|
    ensures CharacterLength(s) > 0 ==> CharacterLength(s[..i]) == CharacterLength(s)
  {
    CharacterBounds(s);
    var n := CharacterLength(s);
    if n > 0 {
      var p := s[..i];
      assert p[0] == s[0];
      assert forall k :: 0 <= k < n ==> p[k] == s[k];
      if n == 2 {
        assert IsTail(p[1]);
      } else if n == 3 {
        assert IsTail(p[1]) && IsTail(p[2]);
      } else if n == 4 {
        assert IsTail(p[1]) && IsTail(p[2]) && IsTail(p[3]);
      }
    }
  }

  lemma {:induction false} CutAtBoundaryIsValid(s: seq<Byte>, i: nat)
    requires ValidUtf8(s) && i <= |s| && IsCharBoundary(s, i)
    ensures ValidUtf8(s[..i])
    decreases |s|
  {
    if i > 0 {
      CharacterBounds(s);
      var n := CharacterLength(s);
      assert i >= n;
      var rest := s[n..];
      assert i - n < |rest| ==> rest[i - n] == s[i];
      CutAtBoundaryIsValid(rest, i - n);
      CharacterOfPrefix(s, i);
      assert s[..i][n..] == rest[..i - n];
    }
  }

  lemma {:induction false} BoundaryNearby(s: seq<Byte>, i: nat)
    requires ValidUtf8(s) && i <= |s|
    ensures exists j: nat :: i - 3 <= j <= i && IsCharBoundary(s, j)
    decreases |s|
  {
    if s == [] {
      assert IsCharBoundary(s, i);
    } else {
      CharacterBounds(s);
      var n := CharacterLength(s);
      if i < n {
        assert IsCharBoundary(s, 0);
      } else {
        var rest := s[n..];
        BoundaryNearby(rest, i - n);
        var j: nat :| i - n - 3 <= j <= i - n && IsCharBoundary(rest, j);
        assert IsCharBoundary(s, n + j) by {
          if 0 < j < |rest| {
            assert rest[j] == s[n + j];
          } else if j == 0 && rest != [] {
            CharacterBounds(rest);
            assert rest[0] == s[n];
          }
        }
      }
    }
  }

  // ----- bounded_string -----

  /** The greatest boundary not above `i`. */
  function BoundaryAtOrBelow(s: seq<Byte>, i: nat): (j: nat)
    requires i <= |s|
    ensures j <= i && IsCharBoundary(s, j)
    ensures forall k :: j < k <= i ==> !IsCharBoundary(s, k)
  {
    if IsCharBoundary(s, i) then i else BoundaryAtOrBelow(s, i - 1)
  }

  function Bounded(s: seq<Byte>, limit: nat): seq<Byte> {
    if |s| <= limit then s else s[..BoundaryAtOrBelow(s, limit)]
  }

  method BoundedString(value: seq<Byte>, limit: nat, truncated: bool) returns (r: seq<Byte>, truncated': bool)
    ensures r == Bounded(value, limit)
    ensures truncated' <==> truncated || |value| > limit
  {
    if |value| <= limit {
      return value, truncated;
    }
    var boundary: nat := limit;
    while !IsCharBoundary(value, boundary)
      invariant boundary <= limit
      invariant BoundaryAtOrBelow(value, boundary) == BoundaryAtOrBelow(value, limit)
      decreases boundary
    {
      boundary := boundary - 1;
    }
    return value[..boundary], true;
  }

  /** Bounding cuts valid UTF-8 to its longest prefix of whole characters that
      fits: valid again, and at most three bytes short of the limit. */
  lemma BoundedIsLongestText(s: seq<Byte>, limit: nat)
    requires ValidUtf8(s)
    ensures Bounded(s, limit) <= s && |Bounded(s, limit)| <= limit && ValidUtf8(Bounded(s, limit))
    ensures forall n :: |Bounded(s, limit)| < n <= limit && n <= |s| ==> !IsCharBoundary(s, n)
    ensures |s| > limit ==> |Bounded(s, limit)| + 3 >= limit
  {
    if |s| > limit {
      CutAtBoundaryIsValid(s, BoundaryAtOrBelow(s, limit));
      BoundaryNearby(s, limit);
    }
  }

  // ----- Evidence hashes -----

  predicate IsSha256Hex(claimed: string) {
    |claimed| == 64 && forall i :: 0 <= i < 64 ==> IsHexDigit(claimed[i])
  }

  /** What the model assumes of SHA-256: digests print as 64 hex digits. */
  ghost predicate PrintsHex(digest: Digest) {
    forall bytes :: IsSha256Hex(digest(bytes))
  }

  function ValidateEvidenceHash(digest: Digest, bytes: seq<Byte>, claimed: string): Result<Unit, CliError> {
    if !IsSha256Hex(claimed) then
      Err(Raise(Backend, "nvms_evidence_hash_invalid"))
    else if Lower(digest(bytes)) != Lower(claimed) then
      Err(Raise(Backend, "nvms_evidence_hash_mismatch"))
    else
      Ok(Unit)
  }

  ghost function HashChecks(digest: Digest, bytes: seq<Byte>, claimed: string): seq<Check> {
    [ Check(IsSha256Hex(claimed), Raise(Backend, "nvms_evidence_hash_invalid")),
      Check(UpToCase(digest(bytes), claimed), Raise(Backend, "nvms_evidence_hash_mismatch")) ]
  }

  lemma HashChecked(digest: Digest, bytes: seq<Byte>, claimed: string)
    ensures Decides(HashChecks(digest, bytes, claimed), FaultOf(ValidateEvidenceHash(digest, bytes, claimed)))
  {
    LowerDecidesCase(digest(bytes), claimed);
    var checks := HashChecks(digest, bytes, claimed);
    if !IsSha256Hex(claimed) {
      assert FailsAt(checks, 0);
    } else if Lower(digest(bytes)) != Lower(claimed) {
      assert FailsAt(checks, 1);
    }
  }

  // ----- trustworthy_failure_lifecycle -----

  datatype Lifecycle = Lifecycle(
    exitCode: int,
    durationMs: int,
    timedOut: bool,
    truncated: bool,
    stdout: seq<Byte>,
    stderr: seq<Byte>,
    stdoutSha256: string,
    stderrSha256: string)

  function LocalFailure(digest: Digest, lossy: seq<Byte> -> seq<Byte>, stdout: seq<Byte>, stderr: seq<Byte>)
    : Lifecycle
  {
    Lifecycle(-1, 0, false, false, lossy(stdout), lossy(stderr), digest(stdout), digest(stderr))
  }

  method TrustworthyFailureLifecycle(lifecycle: Lifecycle, maxOutputBytes: nat, digest: Digest) returns (r: Lifecycle)
    ensures r == Trustworthy(lifecycle, maxOutputBytes, digest)
  {
    r := lifecycle;
    var stdout, truncated := BoundedString(r.stdout, maxOutputBytes, r.truncated);
    r := r.(stdout := stdout, truncated := truncated);
    var stderr, truncatedAgain := BoundedString(r.stderr, maxOutputBytes, r.truncated);
    r := r.(stderr := stderr, truncated := truncatedAgain);
    if ValidateEvidenceHash(digest, r.stdout, r.stdoutSha256).Err? {
      r := r.(stdoutSha256 := digest(r.stdout));
    }
    if ValidateEvidenceHash(digest, r.stderr, r.stderrSha256).Err? {
      r := r.(stderrSha256 := digest(r.stderr));
    }
  }

  function TrustedHash(digest: Digest, bytes: seq<Byte>, claimed: string): string {
    if ValidateEvidenceHash(digest, bytes, claimed).Ok? then claimed else digest(bytes)
  }

  function Trustworthy(lifecycle: Lifecycle, maxOutputBytes: nat, digest: Digest): Lifecycle {
    var stdout := Bounded(lifecycle.stdout, maxOutputBytes);
    var stderr := Bounded(lifecycle.stderr, maxOutputBytes);
    lifecycle.(
      stdout := stdout,
      stderr := stderr,
      truncated := lifecycle.truncated || |lifecycle.stdout| > maxOutputBytes || |lifecycle.stderr| > maxOutputBytes,
      stdoutSha256 := TrustedHash(digest, stdout, lifecycle.stdoutSha256),
      stderrSha256 := TrustedHash(digest, stderr, lifecycle.stderrSha256))
  }

  /** Evidence a reader can rely on without trusting whoever produced it. */
  ghost predicate IsTrustworthy(l: Lifecycle, maxOutputBytes: nat, digest: Digest) {
    && |l.stdout| <= maxOutputBytes && |l.stderr| <= maxOutputBytes
    && IsSha256Hex(l.stdoutSha256) && UpToCase(l.stdoutSha256, digest(l.stdout))
    && IsSha256Hex(l.stderrSha256) && UpToCase(l.stderrSha256, digest(l.stderr))
  }

  /** The evidence tells of the same execution: only what was too long is cut, and
      that is marked. */
  predicate KeepsReport(l: Lifecycle, maxOutputBytes: nat, kept: Lifecycle) {
    && kept.exitCode == l.exitCode && kept.durationMs == l.durationMs && kept.timedOut == l.timedOut
    && kept.stdout <= l.stdout && kept.stderr <= l.stderr
    && (kept.stdout != l.stdout <==> |l.stdout| > maxOutputBytes)
    && (kept.stderr != l.stderr <==> |l.stderr| > maxOutputBytes)
    && (kept.truncated <==> l.truncated || |l.stdout| > maxOutputBytes || |l.stderr| > maxOutputBytes)
  }

  /** The evidence of a failure to run anything is trustworthy as it is, if the
      captured bytes were text. */
  lemma LocalFailureIsTrustworthy(
    digest: Digest, lossy: seq<Byte> -> seq<Byte>, stdout: seq<Byte>, stderr: seq<Byte>, maxOutputBytes: nat)
    requires PrintsHex(digest) && lossy(stdout) == stdout && lossy(stderr) == stderr
    requires |stdout| <= maxOutputBytes && |stderr| <= maxOutputBytes
    ensures var l := LocalFailure(digest, lossy, stdout, stderr);
            && IsTrustworthy(l, maxOutputBytes, digest) && l.stdout == stdout && l.stderr == stderr
            && l.exitCode == -1 && l.durationMs == 0 && !l.timedOut && !l.truncated
  {
    assert IsSha256Hex(digest(stdout)) && IsSha256Hex(digest(stderr));
  }

  /** Whatever a client reports becomes trustworthy evidence, cut only where it
      was too long, and evidence that already was is stored as it came. */
  lemma LifecycleBecomesTrustworthy(lifecycle: Lifecycle, maxOutputBytes: nat, digest: Digest)
    requires PrintsHex(digest)
    ensures IsTrustworthy(Trustworthy(lifecycle, maxOutputBytes, digest), maxOutputBytes, digest)
    ensures Trustworthy(lifecycle, maxOutputBytes, digest) == lifecycle
            <==> IsTrustworthy(lifecycle, maxOutputBytes, digest)
    ensures KeepsReport(lifecycle, maxOutputBytes, Trustworthy(lifecycle, maxOutputBytes, digest))
  {
    var l := Trustworthy(lifecycle, maxOutputBytes, digest);
    TrustedIs(digest, l.stdout, lifecycle.stdoutSha256);
    TrustedIs(digest, l.stderr, lifecycle.stderrSha256);
  }

  /** A claimed hash is kept if it is one and matches, and replaced otherwise. */
  lemma TrustedIs(digest: Digest, bytes: seq<Byte>, claimed: string)
    requires PrintsHex(digest)
    ensures var kept := TrustedHash(digest, bytes, claimed);
            && IsSha256Hex(kept) && UpToCase(kept, digest(bytes))
            && (kept == claimed <==> IsSha256Hex(claimed) && UpToCase(claimed, digest(bytes)))
            && (kept != claimed ==> kept == digest(bytes))
  {
    assert IsSha256Hex(digest(bytes));
    LowerDecidesCase(digest(bytes), claimed);
    LowerDecidesCase(claimed, digest(bytes));
  }
}
