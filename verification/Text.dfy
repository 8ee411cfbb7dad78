/** Strings as the crates use them: the order of `BTreeMap<String, _>` keys,
    ASCII case folding, trimming and splitting. */
module Text {
  import opened Prelude

  // ----- ASCII -----

  function LowerChar(c: char): char {
    if 'A' <= c <= 'Z' then c - 'A' + 'a' else c
  }

  /** `to_ascii_lowercase` */
  function Lower(s: string): (r: string)
    ensures |r| == |s|
    ensures forall i :: 0 <= i < |s| ==> r[i] == LowerChar(s[i])
  {
    seq(|s|, i requires 0 <= i < |s| => LowerChar(s[i]))
  }

  /** The same character, or one letter in two cases. */
  predicate SameLetter(c: char, d: char) {
    || c == d
    || ('A' <= c <= 'Z' && d as int == c as int + 32)
    || ('a' <= c <= 'z' && d as int == c as int - 32)
  }

  /** Equal up to ASCII case. */
  predicate UpToCase(s: string, t: string) {
    |s| == |t| && forall i :: 0 <= i < |s| ==> SameLetter(s[i], t[i])
  }

  /** Lower-casing decides equality up to ASCII case, and leaves no capital. */
  lemma LowerDecidesCase(a: string, b: string)
    ensures Lower(a) == Lower(b) <==> UpToCase(a, b)
    ensures forall c :: c in Lower(a) ==> !('A' <= c <= 'Z')
  {
    if Lower(a) == Lower(b) {
      assert |a| == |b|;
      forall i | 0 <= i < |a|
        ensures SameLetter(a[i], b[i])
      {
        assert Lower(a)[i] == LowerChar(a[i]) && Lower(b)[i] == LowerChar(b[i]);
      }
    }
  }

  predicate IsHexDigit(c: char) {
    '0' <= c <= '9' || 'a' <= c <= 'f' || 'A' <= c <= 'F'
  }

  predicate IsAlphanumeric(c: char) {
    '0' <= c <= '9' || 'a' <= c <= 'z' || 'A' <= c <= 'Z'
  }

  // ----- Trimming -----

  /** The Unicode White_Space property that `str::trim` uses. */
  predicate IsWhitespace(c: char) {
    || '\U{9}' <= c <= '\U{d}'
    || c in {'\U{20}', '\U{85}', '\U{a0}', '\U{1680}', '\U{2028}', '\U{2029}', '\U{202f}', '\U{205f}', '\U{3000}'}
    || '\U{2000}' <= c <= '\U{200a}'
  }

  function TrimStart(s: string): string {
    if s != [] && IsWhitespace(s[0]) then TrimStart(s[1..]) else s
  }

  function TrimEnd(s: string): string {
    if s != [] && IsWhitespace(s[|s| - 1]) then TrimEnd(s[..|s| - 1]) else s
  }

  function Trim(s: string): string {
    TrimEnd(TrimStart(s))
  }

  /** Neither end is whitespace. */
  predicate Trimmed(s: string) {
    s == [] || (!IsWhitespace(s[0]) && !IsWhitespace(s[|s| - 1]))
  }

  lemma {:induction false} TrimEndKeepsStart(s: string)
    ensures TrimEnd(s) <= s
    ensures TrimEnd(s) != [] ==> !IsWhitespace(TrimEnd(s)[|TrimEnd(s)| - 1])
    decreases |s|
  {
    if s != [] && IsWhitespace(s[|s| - 1]) {
      TrimEndKeepsStart(s[..|s| - 1]);
    }
  }

  lemma {:induction false} TrimStartStops(s: string)
    ensures TrimStart(s) != [] ==> !IsWhitespace(TrimStart(s)[0])
    decreases |s|
  {
    if s != [] && IsWhitespace(s[0]) {
      TrimStartStops(s[1..]);
    }
  }

  /** Trimming reaches a trimmed string and leaves trimmed strings alone. */
  lemma TrimIsTrimmed(s: string)
    ensures Trimmed(Trim(s))
    ensures Trimmed(s) ==> Trim(s) == s
  {
    TrimStartStops(s);
    TrimEndKeepsStart(TrimStart(s));
  }

  predicate AllWhitespace(s: string) {
    forall c :: c in s ==> IsWhitespace(c)
  }

  lemma {:induction false} TrimStartDrops(s: string) returns (front: string)
    ensures s == front + TrimStart(s) && AllWhitespace(front)
    decreases |s|
  {
    front := [];
    if s != [] && IsWhitespace(s[0]) {
      var rest := TrimStartDrops(s[1..]);
      front := [s[0]] + rest;
    }
  }

  lemma {:induction false} TrimEndDrops(s: string) returns (back: string)
    ensures s == TrimEnd(s) + back && AllWhitespace(back)
    decreases |s|
  {
    back := [];
    if s != [] && IsWhitespace(s[|s| - 1]) {
      var rest := TrimEndDrops(s[..|s| - 1]);
      back := rest + [s[|s| - 1]];
    }
  }

  /** Trimming drops whitespace from the ends and nothing else. */
  lemma TrimDrops(s: string) returns (front: string, back: string)
    ensures s == front + Trim(s) + back && AllWhitespace(front) && AllWhitespace(back)
  {
    front := TrimStartDrops(s);
    back := TrimEndDrops(TrimStart(s));
  }

  /** Nothing is left exactly of what is all whitespace. */
  lemma TrimsToNothingIff(s: string)
    ensures Trim(s) == "" <==> AllWhitespace(s)
  {
    var front, back := TrimDrops(s);
    TrimIsTrimmed(s);
    if Trim(s) != "" {
      assert Trim(s)[0] in s;
    }
  }

  // ----- Splitting -----

  /** Where `c` first occurs, or the length. */
  function FirstIndexOf<T(==)>(s: seq<T>, c: T): (i: nat)
    ensures i <= |s| && c !in s[..i]
    ensures i < |s| ==> s[i] == c
    ensures i < |s| <==> c in s
  {
    if s == [] || s[0] == c then 0 else 1 + FirstIndexOf(s[1..], c)
  }

  lemma {:induction false} FirstIndexIs<T>(s: seq<T>, c: T, i: nat)
    requires i < |s| && s[i] == c && c !in s[..i]
    ensures FirstIndexOf(s, c) == i
    decreases i
  {
    if i > 0 {
      assert s[0] == s[..i][0];
      assert s[1..][..i - 1] == s[..i][1..];
      FirstIndexIs(s[1..], c, i - 1);
    }
  }

  /** Where the part after the last `c` starts, or 0. */
  function AfterLastIndexOf(s: string, c: char): (i: nat)
    ensures i <= |s| && c !in s[i..]
    ensures i > 0 ==> s[i - 1] == c
  {
    if s == [] || s[|s| - 1] == c then |s| else AfterLastIndexOf(s[..|s| - 1], c)
  }

  lemma {:induction false} AfterLastIndexIs(s: string, c: char, i: nat)
    requires 0 < i <= |s| && s[i - 1] == c && c !in s[i..]
    ensures AfterLastIndexOf(s, c) == i
    decreases |s|
  {
    if i < |s| {
      assert s[|s| - 1] == s[i..][|s| - 1 - i];
      assert s[..|s| - 1][i..] == s[i..][..|s| - 1 - i];
      AfterLastIndexIs(s[..|s| - 1], c, i);
    }
  }

  /** `str::split_once`: around the first occurrence. */
  function SplitOnce(s: string, c: char): (r: Option<(string, string)>)
    ensures r.None? <==> c !in s
    ensures r.Some? ==> s == r.value.0 + [c] + r.value.1 && c !in r.value.0
  {
    var i := FirstIndexOf(s, c);
    TakeAll(s);
    if i == |s| then None else Some((s[..i], s[i + 1..]))
  }

  /** `str::rsplit_once`: around the last occurrence. */
  function RSplitOnce(s: string, c: char): (r: Option<(string, string)>)
    ensures r.None? <==> c !in s
    ensures r.Some? ==> s == r.value.0 + [c] + r.value.1 && c !in r.value.1
  {
    var i := AfterLastIndexOf(s, c);
    assert s[0..] == s;
    if i == 0 then None else Some((s[..i - 1], s[i..]))
  }

  lemma SplitOnceIs(a: string, c: char, b: string)
    requires c !in a
    ensures SplitOnce(a + [c] + b, c) == Some((a, b))
  {
    var s := a + [c] + b;
    assert s[..|a|] == a && s[|a|] == c && s[|a| + 1..] == b;
    FirstIndexIs(s, c, |a|);
  }

  lemma RSplitOnceIs(a: string, c: char, b: string)
    requires c !in b
    ensures RSplitOnce(a + [c] + b, c) == Some((a, b))
  {
    var s := a + [c] + b;
    assert s[..|a|] == a && s[|a|] == c && s[|a| + 1..] == b;
    AfterLastIndexIs(s, c, |a| + 1);
  }

  lemma SplitAt<T>(s: seq<T>, n: nat)
    requires n < |s|
    ensures s == s[..n] + [s[n]] + s[n + 1..]
  {
  }

  lemma SplitBefore<T>(s: seq<T>, n: nat)
    requires n < |s|
    ensures s == s[..n] + s[n..] && s[n..][0] == s[n]
  {
  }

  lemma AppendNothing<T>(s: seq<T>)
    ensures s + [] == s
    ensures [] + s == s
  {
  }

  // ----- The order of BTreeMap keys -----

  predicate LexLess(a: string, b: string) {
    b != [] && (a == [] || a[0] < b[0] || (a[0] == b[0] && LexLess(a[1..], b[1..])))
  }

  predicate LexLessEq(a: string, b: string) {
    a == b || LexLess(a, b)
  }

  lemma LexIrreflexive(a: string)
    ensures !LexLess(a, a)
  {
  }

  lemma LexTransitive(a: string, b: string, c: string)
    requires LexLess(a, b) && LexLess(b, c)
    ensures LexLess(a, c)
  {
  }

  lemma LexTotal(a: string, b: string)
    ensures a == b || LexLess(a, b) || LexLess(b, a)
  {
    if a != [] && b != [] && a[0] == b[0] {
      LexTotal(a[1..], b[1..]);
      assert a == [a[0]] + a[1..] && b == [b[0]] + b[1..];
    }
  }

  lemma LexAsymmetric(a: string, b: string)
    requires LexLess(a, b)
    ensures !LexLess(b, a) && a != b
  {
    LexIrreflexive(a);
    if LexLess(b, a) {
      LexTransitive(a, b, a);
    }
  }

  ghost predicate StrictlySorted(s: seq<string>) {
    forall i, j :: 0 <= i < j < |s| ==> LexLess(s[i], s[j])
  }

  ghost predicate NoDuplicates<T>(s: seq<T>) {
    forall i, j :: 0 <= i < j < |s| ==> s[i] != s[j]
  }

  function Elements<T>(s: seq<T>): set<T> {
    set x | x in s
  }

  /** Walking a sequence from the front: the next element joins the prefix. */
  lemma TakeNext<T>(s: seq<T>, i: nat)
    requires i < |s|
    ensures s[..i + 1] == s[..i] + [s[i]]
  {
  }

  lemma TakeNextElements<T>(s: seq<T>, i: nat)
    requires i < |s|
    ensures Elements(s[..i + 1]) == Elements(s[..i]) + {s[i]}
  {
    TakeNext(s, i);
  }

  /** Walking a sequence by dropping from the front. */
  lemma DropNext<T>(s: seq<T>, i: nat)
    requires i < |s|
    ensures s[i..] != [] && s[i..][0] == s[i] && s[i..][1..] == s[i + 1..]
  {
  }

  lemma TakeDrop<T>(s: seq<T>, k: nat)
    requires k <= |s|
    ensures s == s[..k] + s[k..]
  {
  }

  lemma TakeAll<T>(s: seq<T>)
    ensures s[..|s|] == s
  {
  }

  predicate IsLeast(x: string, keys: set<string>) {
    x in keys && forall y :: y in keys ==> LexLessEq(x, y)
  }

  lemma LeastExists(keys: set<string>)
    requires keys != {}
    ensures exists x :: IsLeast(x, keys)
  {
    var k :| k in keys;
    var rest := keys - {k};
    if rest == {} {
      assert keys == {k};
      assert IsLeast(k, keys);
    } else {
      LeastExists(rest);
      var m :| IsLeast(m, rest);
      LexTotal(k, m);
      var least := if LexLess(k, m) then k else m;
      forall y | y in keys
        ensures LexLessEq(least, y)
      {
        if y != k {
          assert y in rest;
          if LexLess(k, m) && LexLess(m, y) {
            LexTransitive(k, m, y);
          }
        }
      }
      assert IsLeast(least, keys);
    }
  }

  lemma LeastIsUnique(x: string, y: string, keys: set<string>)
    requires IsLeast(x, keys) && IsLeast(y, keys)
    ensures x == y
  {
    if x != y {
      LexAsymmetric(x, y);
    }
  }

  lemma LeastIsDetermined(keys: set<string>)
    ensures forall x, y :: IsLeast(x, keys) && IsLeast(y, keys) ==> x == y
  {
    forall x, y | IsLeast(x, keys) && IsLeast(y, keys)
      ensures x == y
    {
      LeastIsUnique(x, y, keys);
    }
  }

  lemma LeastFirst(least: string, rest: seq<string>, keys: set<string>)
    requires IsLeast(least, keys)
    requires Elements(rest) == keys - {least} && StrictlySorted(rest)
    ensures Elements([least] + rest) == keys
    ensures StrictlySorted([least] + rest)
  {
    var all := [least] + rest;
    assert Elements(all) == {least} + Elements(rest);
    forall i, j | 0 <= i < j < |all|
      ensures LexLess(all[i], all[j])
    {
      assert all[j] == rest[j - 1] && all[j] in Elements(rest);
    }
  }

  /** The keys of a `BTreeMap` in iteration order. */
  function SortedKeys(keys: set<string>): (r: seq<string>)
    ensures Elements(r) == keys
    ensures |r| == |keys|
    ensures StrictlySorted(r)
  {
    if keys == {} then
      []
    else
      LeastExists(keys);
      LeastIsDetermined(keys);
      var least :| IsLeast(least, keys);
      var rest := SortedKeys(keys - {least});
      LeastFirst(least, rest, keys);
      [least] + rest
  }

  lemma SortedMembers(keys: set<string>)
    ensures forall n :: n in SortedKeys(keys) <==> n in keys
  {
    var names := SortedKeys(keys);
    assert forall n :: n in names <==> n in Elements(names);
  }

  /** Iterating over a `BTreeMap`: its keys, once each, in order. */
  method KeysInOrder(keys: set<string>) returns (names: seq<string>)
    ensures names == SortedKeys(keys)
    ensures forall n :: n in names <==> n in keys
    ensures StrictlySorted(names)
  {
    names := SortedKeys(keys);
    SortedMembers(keys);
  }

  /** The keys that come before position `i` are those that sort before it. */
  lemma EarlierKeys(names: seq<string>, i: nat, p: string)
    requires StrictlySorted(names) && i < |names| && p in names
    ensures LexLess(p, names[i]) <==> p in names[..i]
  {
    var j :| 0 <= j < |names| && names[j] == p;
    LexIrreflexive(p);
    if j > i {
      LexAsymmetric(names[i], p);
    }
    if p in names[..i] {
      var k :| 0 <= k < i && names[k] == p;
    }
  }

  lemma SortedHasNoDuplicates(s: seq<string>)
    requires StrictlySorted(s)
    ensures NoDuplicates(s)
  {
    forall i, j | 0 <= i < j < |s|
      ensures s[i] != s[j]
    {
      LexAsymmetric(s[i], s[j]);
    }
  }

  /** A strictly sorted sequence is determined by its elements. */
  lemma SortedIsUnique(s: seq<string>, t: seq<string>)
    requires StrictlySorted(s) && StrictlySorted(t)
    requires Elements(s) == Elements(t)
    ensures s == t
  {
    SortedHasNoDuplicates(s);
    SortedHasNoDuplicates(t);
    NoDuplicatesCardinality(s);
    NoDuplicatesCardinality(t);
    assert |s| == |t|;
    if s != [] {
      assert s[0] in Elements(t) && t[0] in Elements(s);
      HeadsAgree(s, t);
      assert Elements(s[1..]) == Elements(s) - {s[0]};
      assert Elements(t[1..]) == Elements(t) - {t[0]};
      SortedIsUnique(s[1..], t[1..]);
      assert s == [s[0]] + s[1..] && t == [t[0]] + t[1..];
    }
  }

  lemma SortedTriple(a: string, b: string, c: string)
    requires LexLess(a, b) && LexLess(b, c)
    ensures a != b && b != c && LexLess(a, c) && a != c
    ensures SortedKeys({a, b, c}) == [a, b, c]
  {
    LexTransitive(a, b, c);
    LexAsymmetric(a, b);
    LexAsymmetric(b, c);
    LexAsymmetric(a, c);
    ElementsOfThree(a, b, c);
    SortedIsUnique(SortedKeys({a, b, c}), [a, b, c]);
  }

  lemma ElementsOfThree<T>(a: T, b: T, c: T)
    ensures Elements([a, b, c]) == {a, b, c}
  {
  }

  lemma HeadsAgree(s: seq<string>, t: seq<string>)
    requires StrictlySorted(s) && StrictlySorted(t)
    requires s != [] && t != [] && s[0] in t && t[0] in s
    ensures s[0] == t[0]
  {
    var i :| 0 <= i < |t| && t[i] == s[0];
    var j :| 0 <= j < |s| && s[j] == t[0];
    if i > 0 && j > 0 {
      LexAsymmetric(t[0], t[i]);
    }
  }

  lemma NoDuplicatesCardinality<T>(s: seq<T>)
    ensures |Elements(s)| <= |s|
    ensures |Elements(s)| == |s| <==> NoDuplicates(s)
  {
    if s != [] {
      var front := s[..|s| - 1];
      var last := s[|s| - 1];
      assert Elements(s) == Elements(front) + {last};
      NoDuplicatesCardinality(front);
      if last in front {
        assert Elements(s) == Elements(front);
        var i :| 0 <= i < |front| && front[i] == last;
        assert s[i] == s[|s| - 1];
      } else {
        assert |Elements(s)| == |Elements(front)| + 1;
        if NoDuplicates(front) {
          forall i, j | 0 <= i < j < |s|
            ensures s[i] != s[j]
          {
            assert s[i] == front[i];
          }
        } else {
          var i, j :| 0 <= i < j < |front| && front[i] == front[j];
          assert s[i] == s[j];
        }
      }
    }
  }
}
