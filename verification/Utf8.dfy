/** UTF-8 as section 3 of RFC 3629 defines it, by encoding: what the byte tests on
    captured output amount to. */
module Utf8 {
  import opened Prelude
  import opened Text
  import opened Evidence

  predicate Scalar(c: nat) {
    c <= 0xD7FF || 0xE000 <= c <= 0x10FFFF
  }

  predicate Scalars(text: seq<nat>) {
    forall c :: c in text ==> Scalar(c)
  }

  function Encode(c: nat): (r: seq<Byte>)
    requires Scalar(c)
    ensures 1 <= |r| <= 4
  {
    if c <= 0x7F then
      [c]
    else if c <= 0x7FF then
      [0xC0 + c / 64, 0x80 + c % 64]
    else if c <= 0xFFFF then
      [0xE0 + c / 4096, 0x80 + c / 64 % 64, 0x80 + c % 64]
    else
      [0xF0 + c / 262144, 0x80 + c / 4096 % 64, 0x80 + c / 64 % 64, 0x80 + c % 64]
  }

  function EncodeAll(text: seq<nat>): seq<Byte>
    requires Scalars(text)
  {
    if text == [] then [] else Encode(text[0]) + EncodeAll(text[1..])
  }

  lemma EncodedLength(c: nat, rest: seq<Byte>)
    requires Scalar(c)
    ensures CharacterLength(Encode(c) + rest) == |Encode(c)|
  {
    var s := Encode(c) + rest;
    assert s[..|Encode(c)|] == Encode(c);
    EncodedAlone(c);
    LengthOfPrefix(s, |Encode(c)|);
  }

  lemma EncodedAlone(c: nat)
    requires Scalar(c)
    ensures CharacterLength(Encode(c)) == |Encode(c)|
  {
  }

  /** Only the bytes of a character decide its length. */
  lemma LengthOfPrefix(s: seq<Byte>, n: nat)
    requires 0 < n <= |s| && CharacterLength(s[..n]) == n
    ensures CharacterLength(s) == n
  {
    var p := s[..n];
    assert forall i :: 0 <= i < n ==> p[i] == s[i];
    if n == 2 {
      assert IsTail(s[1]);
    } else if n == 3 {
      assert IsTail(s[1]) && IsTail(s[2]);
    } else if n == 4 {
      assert IsTail(s[1]) && IsTail(s[2]) && IsTail(s[3]);
    }
  }

  lemma Base64(high: int, low: int)
    requires 0 <= low < 64
    ensures (64 * high + low) / 64 == high && (64 * high + low) % 64 == low
  {
  }

  lemma TwoBytes(a: nat, b: nat)
    requires 2 <= a < 32 && b < 64
    ensures Encode(64 * a + b) == [0xC0 + a, 0x80 + b]
  {
    Base64(a, b);
  }

  lemma ThreeBytes(a: nat, b: nat, c: nat)
    requires a < 16 && b < 64 && c < 64 && (a == 0 ==> b >= 32) && (a == 13 ==> b < 32)
    ensures var n := 64 * (64 * a + b) + c;
            Scalar(n) && n > 0x7FF && Encode(n) == [0xE0 + a, 0x80 + b, 0x80 + c]
  {
    var n := 64 * (64 * a + b) + c;
    Base64(64 * a + b, c);
    Base64(a, b);
    assert n / 4096 == n / 64 / 64;
  }

  lemma FourBytes(a: nat, b: nat, c: nat, d: nat)
    requires a <= 4 && b < 64 && c < 64 && d < 64 && (a == 0 ==> b >= 16) && (a == 4 ==> b < 16)
    ensures var n := 64 * (64 * (64 * a + b) + c) + d;
            Scalar(n) && n > 0xFFFF && Encode(n) == [0xF0 + a, 0x80 + b, 0x80 + c, 0x80 + d]
  {
    var n := 64 * (64 * (64 * a + b) + c) + d;
    Base64(64 * (64 * a + b) + c, d);
    Base64(64 * a + b, c);
    Base64(a, b);
    assert n / 4096 == n / 64 / 64;
    assert n / 262144 == n / 64 / 64 / 64;
  }

  /** What the byte tests take for a character is one. */
  lemma CharacterDecodes(s: seq<Byte>) returns (c: nat)
    requires CharacterLength(s) > 0
    ensures Scalar(c) && CharacterLength(s) <= |s| && Encode(c) == s[..CharacterLength(s)]
  {
    CharacterBounds(s);
    match CharacterLength(s) {
      case 1 => c := s[0];
      case 2 => c := TwoDecode(s);
      case 3 => c := ThreeDecode(s);
      case _ => c := FourDecode(s);
    }
  }

  lemma TwoDecode(s: seq<Byte>) returns (c: nat)
    requires CharacterLength(s) == 2
    ensures |s| >= 2 && Scalar(c) && Encode(c) == s[..2]
  {
    c := 64 * (s[0] as int - 0xC0) + (s[1] as int - 0x80);
    TwoBytes(s[0] - 0xC0, s[1] - 0x80);
  }

  lemma ThreeDecode(s: seq<Byte>) returns (c: nat)
    requires CharacterLength(s) == 3
    ensures |s| >= 3 && Scalar(c) && Encode(c) == s[..3]
  {
    assert IsTail(s[1]) && IsTail(s[2]);
    c := 64 * (64 * (s[0] as int - 0xE0) + (s[1] as int - 0x80)) + (s[2] as int - 0x80);
    ThreeBytes(s[0] - 0xE0, s[1] - 0x80, s[2] - 0x80);
  }

  lemma FourDecode(s: seq<Byte>) returns (c: nat)
    requires CharacterLength(s) == 4
    ensures |s| >= 4 && Scalar(c) && Encode(c) == s[..4]
  {
    assert IsTail(s[1]) && IsTail(s[2]) && IsTail(s[3]);
    c := 64 * (64 * (64 * (s[0] as int - 0xF0) + (s[1] as int - 0x80)) + (s[2] as int - 0x80)) + (s[3] as int - 0x80);
    FourBytes(s[0] - 0xF0, s[1] - 0x80, s[2] - 0x80, s[3] - 0x80);
  }

  lemma EncodeAllNext(c: nat, rest: seq<nat>)
    requires Scalar(c) && Scalars(rest)
    ensures Scalars([c] + rest) && EncodeAll([c] + rest) == Encode(c) + EncodeAll(rest)
  {
    assert ([c] + rest)[1..] == rest;
  }

  /** Bytes are valid UTF-8 exactly if they encode some text. */
  lemma {:induction false} ValidIsEncoded(s: seq<Byte>) returns (text: seq<nat>)
    requires ValidUtf8(s)
    ensures Scalars(text) && EncodeAll(text) == s
    decreases |s|
  {
    text := [];
    if s != [] {
      CharacterBounds(s);
      var n := CharacterLength(s);
      var c := CharacterDecodes(s);
      var rest := ValidIsEncoded(s[n..]);
      EncodeAllNext(c, rest);
      text := [c] + rest;
    }
  }

  lemma {:induction false} EncodedIsValid(text: seq<nat>)
    requires Scalars(text)
    ensures ValidUtf8(EncodeAll(text))
    decreases |text|
  {
    if text != [] {
      var first, rest := Encode(text[0]), EncodeAll(text[1..]);
      EncodedIsValid(text[1..]);
      EncodedLength(text[0], rest);
      assert (first + rest)[|first|..] == rest;
    }
  }

  lemma ValidIffEncoded(s: seq<Byte>)
    ensures ValidUtf8(s) <==> exists text :: Scalars(text) && EncodeAll(text) == s
  {
    if ValidUtf8(s) {
      var text := ValidIsEncoded(s);
    }
    forall text | Scalars(text)
      ensures ValidUtf8(EncodeAll(text))
    {
      EncodedIsValid(text);
    }
  }

  // ----- Character boundaries -----

  lemma EncodedHead(c: nat)
    requires Scalar(c)
    ensures !IsTail(Encode(c)[0]) && forall i :: 1 <= i < |Encode(c)| ==> IsTail(Encode(c)[i])
  {
  }

  /** Cutting after some number of characters. */
  ghost predicate BetweenCharacters(text: seq<nat>, i: nat)
    requires Scalars(text)
  {
    exists k :: 0 <= k <= |text| && i == |EncodeAll(text[..k])|
  }

  lemma EncodeAllSplits(text: seq<nat>, k: nat)
    requires Scalars(text) && 0 < k <= |text|
    ensures EncodeAll(text[..k]) == Encode(text[0]) + EncodeAll(text[1..][..k - 1])
  {
    assert text[..k] == [text[0]] + text[1..][..k - 1];
    EncodeAllNext(text[0], text[1..][..k - 1]);
  }

  lemma BetweenNext(text: seq<nat>, i: nat)
    requires Scalars(text) && text != [] && i > 0
    ensures BetweenCharacters(text, i)
            <==> i >= |Encode(text[0])| && BetweenCharacters(text[1..], i - |Encode(text[0])|)
  {
    if BetweenCharacters(text, i) {
      var k :| 0 <= k <= |text| && i == |EncodeAll(text[..k])|;
      assert text[..0] == [];
      EncodeAllSplits(text, k);
      assert i - |Encode(text[0])| == |EncodeAll(text[1..][..k - 1])|;
    }
    if i >= |Encode(text[0])| && BetweenCharacters(text[1..], i - |Encode(text[0])|) {
      var k :| 0 <= k <= |text[1..]| && i - |Encode(text[0])| == |EncodeAll(text[1..][..k])|;
      EncodeAllSplits(text, k + 1);
    }
  }

  /** The byte test finds exactly the positions between characters. */
  lemma {:induction false} BoundaryIff(text: seq<nat>, i: nat)
    requires Scalars(text) && i <= |EncodeAll(text)|
    ensures IsCharBoundary(EncodeAll(text), i) <==> BetweenCharacters(text, i)
    decreases |text|
  {
    var s := EncodeAll(text);
    if i == 0 {
      assert text[..0] == [] && |EncodeAll(text[..0])| == 0;
    } else {
      var first, rest := Encode(text[0]), EncodeAll(text[1..]);
      EncodedHead(text[0]);
      BetweenNext(text, i);
      if i < |first| {
        assert s[i] == first[i];
      } else {
        BoundaryIff(text[1..], i - |first|);
        if i < |s| {
          assert s[i] == rest[i - |first|];
          if i == |first| {
            RestStartsCharacter(text[1..]);
          }
        }
      }
    }
  }

  lemma RestStartsCharacter(text: seq<nat>)
    requires Scalars(text) && EncodeAll(text) != []
    ensures !IsTail(EncodeAll(text)[0])
  {
    EncodedHead(text[0]);
    assert EncodeAll(text)[0] == Encode(text[0])[0];
  }

  // ----- Bounded text -----

  /** The first characters of the text, as many as fit. */
  ghost predicate LongestThatFits(text: seq<nat>, limit: nat, kept: seq<Byte>)
    requires Scalars(text)
  {
    exists k :: 0 <= k <= |text| && kept == EncodeAll(text[..k]) && |kept| <= limit
                && (k < |text| ==> |EncodeAll(text[..k + 1])| > limit)
  }

  lemma {:induction false} EncodedPrefix(text: seq<nat>, k: nat)
    requires Scalars(text) && k <= |text|
    ensures EncodeAll(text[..k]) <= EncodeAll(text)
    decreases |text|
  {
    if k == 0 {
      assert text[..0] == [];
    } else {
      EncodedPrefix(text[1..], k - 1);
      EncodeAllSplits(text, k);
    }
  }

  lemma {:induction false} LongerIsLonger(text: seq<nat>, k: nat)
    requires Scalars(text) && k < |text|
    ensures |EncodeAll(text[..k + 1])| > |EncodeAll(text[..k])|
    decreases k
  {
    EncodeAllSplits(text, k + 1);
    if k == 0 {
      assert text[..0] == [];
    } else {
      EncodeAllSplits(text, k);
      LongerIsLonger(text[1..], k - 1);
    }
  }

  /** Bounding keeps as many of the first characters as fit, whatever the text. */
  lemma BoundedKeepsCharacters(text: seq<nat>, limit: nat)
    requires Scalars(text)
    ensures LongestThatFits(text, limit, Bounded(EncodeAll(text), limit))
  {
    var s := EncodeAll(text);
    var kept := Bounded(s, limit);
    EncodedIsValid(text);
    BoundedIsLongestText(s, limit);
    BoundaryIff(text, |kept|);
    if |s| <= limit {
      TakeAll(text);
    } else {
      var k :| 0 <= k <= |text| && |kept| == |EncodeAll(text[..k])|;
      EncodedPrefix(text, k);
      assert kept == EncodeAll(text[..k]);
      if k < |text| {
        LongerIsLonger(text, k);
        EncodedPrefix(text, k + 1);
        BoundaryIff(text, |EncodeAll(text[..k + 1])|);
      }
    }
  }
}
