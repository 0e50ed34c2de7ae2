/**
 * `getCookie(name)`, which all four storefront scripts define the same way
 * (assets/cart-type-display.js:328-333 and its copies): prefix `document.cookie` with "; ",
 * split on "; name=", and when that gives exactly two pieces take the second up to its first ';'.
 */
module Cookies {
  import opened Wrappers

  /** `sep` occurs in `s` at index `i`. */
  predicate OccursAt(s: string, sep: string, i: int) {
    0 <= i && i + |sep| <= |s| && s[i..i + |sep|] == sep
  }

  /** The first index at or after `k` where `sep` occurs, or -1. */
  function IndexFrom(s: string, sep: string, k: nat): (r: int)
    requires k <= |s|
    ensures r == -1 || (k <= r && OccursAt(s, sep, r))
    ensures r >= 0 ==> forall j :: k <= j < r ==> !OccursAt(s, sep, j)
    ensures r == -1 ==> forall j :: k <= j ==> !OccursAt(s, sep, j)
    decreases |s| - k
  {
    if k + |sep| > |s| then -1
    else if s[k..k + |sep|] == sep then k
    else if k == |s| then -1
    else IndexFrom(s, sep, k + 1)
  }

  /** `s.split(sep)` for a non-empty separator: the pieces between the occurrences found left to
      right, each search starting after the previous occurrence. */
  function Split(s: string, sep: string): (parts: seq<string>)
    requires |sep| > 0
    ensures |parts| >= 1
    decreases |s|
  {
    var i := IndexFrom(s, sep, 0);
    if i < 0 then [s] else [s[..i]] + Split(s[i + |sep|..], sep)
  }

  /** `s.split(c).shift()`: the longest prefix of `s` without `c`. */
  function Before(s: string, c: char): (r: string)
    ensures c !in r && r <= s
    ensures |r| < |s| ==> s[|r|] == c
  {
    if |s| == 0 || s[0] == c then "" else [s[0]] + Before(s[1..], c)
  }

  /** The separator getCookie splits on. */
  function Sep(name: string): string {
    "; " + name + "="
  }

  function GetCookie(cookie: string, name: string): Option<string> {
    var parts := Split("; " + cookie, Sep(name));
    if |parts| == 2 then Some(Before(parts[1], ';')) else None
  }

  ghost predicate ExactlyOnce(s: string, sep: string) {
    exists i :: OccursAt(s, sep, i) && forall j :: OccursAt(s, sep, j) ==> j == i
  }

  lemma OccursAfter(s: string, sep: string, m: nat, j: int)
    requires m <= |s|
    ensures OccursAt(s[m..], sep, j) <==> j >= 0 && OccursAt(s, sep, m + j)
  {
    if j >= 0 && m + j + |sep| <= |s| {
      assert s[m..][j..j + |sep|] == s[m + j..m + j + |sep|];
    }
  }

  /** Two occurrences of a separator whose only ';' is its first character do not overlap. */
  lemma NoOverlap(s: string, sep: string, i: int, j: int)
    requires |sep| > 0 && sep[0] == ';' && ';' !in sep[1..]
    requires OccursAt(s, sep, i) && OccursAt(s, sep, j) && i < j
    ensures i + |sep| <= j
  {
  }

  /** With a separator whose only ';' is its first character, `s.split(sep)` has exactly two
      pieces when `sep` occurs exactly once, the second being everything after the occurrence. */
  lemma SplitTwo(s: string, sep: string)
    requires |sep| > 0 && sep[0] == ';' && ';' !in sep[1..]
    ensures |Split(s, sep)| == 2 <==> ExactlyOnce(s, sep)
    ensures forall i :: OccursAt(s, sep, i) && |Split(s, sep)| == 2 ==> Split(s, sep)[1] == s[i + |sep|..]
  {
    var i0 := IndexFrom(s, sep, 0);
    if i0 >= 0 {
      var rest := s[i0 + |sep|..];
      if IndexFrom(rest, sep, 0) < 0 {
        SplitOnce(s, sep, i0);
      } else {
        SplitMore(s, sep, i0);
      }
    }
  }

  lemma SplitOnce(s: string, sep: string, i0: int)
    requires |sep| > 0 && sep[0] == ';' && ';' !in sep[1..]
    requires i0 == IndexFrom(s, sep, 0) >= 0 && IndexFrom(s[i0 + |sep|..], sep, 0) < 0
    ensures forall j :: OccursAt(s, sep, j) <==> j == i0
    ensures Split(s, sep) == [s[..i0], s[i0 + |sep|..]]
  {
    OnlyOccurrence(s, sep, i0);
    SplitAtOnly(s, sep, i0);
  }

  lemma SplitAtOnly(s: string, sep: string, i0: int)
    requires |sep| > 0
    requires i0 == IndexFrom(s, sep, 0) >= 0 && IndexFrom(s[i0 + |sep|..], sep, 0) < 0
    ensures Split(s, sep) == [s[..i0], s[i0 + |sep|..]]
  {
    var rest := s[i0 + |sep|..];
    assert Split(rest, sep) == [rest];
  }

  lemma OnlyOccurrence(s: string, sep: string, i0: int)
    requires |sep| > 0 && sep[0] == ';' && ';' !in sep[1..]
    requires i0 == IndexFrom(s, sep, 0) >= 0 && IndexFrom(s[i0 + |sep|..], sep, 0) < 0
    ensures forall j :: OccursAt(s, sep, j) <==> j == i0
  {
    forall j | OccursAt(s, sep, j) ensures j == i0 {
      if j > i0 {
        NoOverlap(s, sep, i0, j);
        OccursAfter(s, sep, i0 + |sep|, j - i0 - |sep|);
      }
    }
  }

  lemma SplitMore(s: string, sep: string, i0: int)
    requires |sep| > 0
    requires i0 == IndexFrom(s, sep, 0) >= 0 && IndexFrom(s[i0 + |sep|..], sep, 0) >= 0
    ensures OccursAt(s, sep, i0) && OccursAt(s, sep, i0 + |sep| + IndexFrom(s[i0 + |sep|..], sep, 0))
    ensures |Split(s, sep)| >= 3
  {
    var rest := s[i0 + |sep|..];
    OccursAfter(s, sep, i0 + |sep|, IndexFrom(rest, sep, 0));
    SplitThree(s, sep, i0, rest);
  }

  lemma SplitThree(s: string, sep: string, i0: int, rest: string)
    requires |sep| > 0
    requires i0 == IndexFrom(s, sep, 0) >= 0 && rest == s[i0 + |sep|..] && IndexFrom(rest, sep, 0) >= 0
    ensures |Split(s, sep)| >= 3
  {
    var i1 := IndexFrom(rest, sep, 0);
    var r2 := rest[i1 + |sep|..];
    SplitLength(s, sep, i0, rest);
    SplitLength(rest, sep, i1, r2);
  }

  /** Splitting at a first occurrence `i` of `sep` gives one part more than splitting what
      follows it. */
  lemma SplitLength(s: string, sep: string, i: int, t: string)
    requires |sep| > 0 && i == IndexFrom(s, sep, 0) >= 0 && t == s[i + |sep|..]
    ensures |Split(s, sep)| == 1 + |Split(t, sep)|
  {
    assert Split(s, sep) == [s[..i]] + Split(t, sep);
  }

  /** getCookie finds a value exactly when "; name=" occurs exactly once in "; " + cookie, and the
      value is what follows that occurrence, up to the next ';'. A name present twice (the same
      cookie set for two paths) reads as missing. */
  lemma GetCookieSpec(cookie: string, name: string)
    requires ';' !in name
    ensures GetCookie(cookie, name).Some? <==> ExactlyOnce("; " + cookie, Sep(name))
    ensures forall i :: OccursAt("; " + cookie, Sep(name), i) && GetCookie(cookie, name).Some? ==>
              GetCookie(cookie, name).value == Before(("; " + cookie)[i + |Sep(name)|..], ';')
  {
    var sep := Sep(name);
    assert sep[1..] == " " + name + "=";
    SplitTwo("; " + cookie, sep);
  }

  /** A cookie jar rendered as `document.cookie` gives it: `name=value` pairs joined by "; ". */
  function Render(jar: seq<(string, string)>): string
    decreases |jar|
  {
    if |jar| == 0 then ""
    else if |jar| == 1 then jar[0].0 + "=" + jar[0].1
    else jar[0].0 + "=" + jar[0].1 + "; " + Render(jar[1..])
  }

  /** The same jar with every pair prefixed by "; ". */
  function Blocks(jar: seq<(string, string)>): string
    decreases |jar|
  {
    if |jar| == 0 then "" else Sep(jar[0].0) + jar[0].1 + Blocks(jar[1..])
  }

  predicate NameOk(name: string) {
    ';' !in name && '=' !in name
  }

  /** Names without ';' or '=', values without ';', no name twice. */
  predicate JarOk(jar: seq<(string, string)>) {
    && (forall k :: 0 <= k < |jar| ==> NameOk(jar[k].0) && ';' !in jar[k].1)
    && (forall k, l :: 0 <= k < l < |jar| ==> jar[k].0 != jar[l].0)
  }

  lemma {:induction false} RenderBlocks(jar: seq<(string, string)>)
    requires |jar| > 0
    ensures "; " + Render(jar) == Blocks(jar)
    decreases |jar|
  {
    if |jar| > 1 {
      RenderBlocks(jar[1..]);
    }
  }

  /** Where a separator can occur in one block followed by more blocks. */
  lemma BlockOccurrences(key: string, value: string, tail: string, name: string, i: int)
    requires NameOk(key) && ';' !in value && NameOk(name)
    ensures var b := Sep(key) + value;
      && (i == 0 ==> (OccursAt(b + tail, Sep(name), 0) <==> key == name))
      && (0 < i < |b| ==> !OccursAt(b + tail, Sep(name), i))
      && (i >= |b| ==> (OccursAt(b + tail, Sep(name), i) <==> OccursAt(tail, Sep(name), i - |b|)))
  {
    var b, s, sep := Sep(key) + value, Sep(key) + value + tail, Sep(name);
    if i == 0 && key != name && |sep| <= |s| {
      if |key| < |name| {
        assert s[2 + |key|] == '=';
        assert name[|key|] in name;
        assert s[..|sep|][2 + |key|] != sep[2 + |key|];
      } else if |key| > |name| {
        assert key[|name|] in key;
        assert s[2 + |name|] == key[|name|];
        assert s[..|sep|][2 + |name|] != sep[2 + |name|];
      } else {
        assert exists d :: 0 <= d < |key| && key[d] != name[d];
        var d :| 0 <= d < |key| && key[d] != name[d];
        assert s[2 + d] == key[d] && sep[2 + d] == name[d];
        assert s[..|sep|][2 + d] != sep[2 + d];
      }
    }
    if 0 < i < |b| && i + |sep| <= |s| {
      assert b[1..] == " " + key + "=" + value;
      assert b[i] == b[1..][i - 1];
      assert b[i] in b[1..];
      assert s[i..i + |sep|][0] != sep[0];
    }
    if i >= |b| {
      assert s[|b|..] == tail;
      OccursAfter(s, sep, |b|, i - |b|);
    }
  }

  /** A value without ';' followed by nothing or by more blocks reads back whole. */
  lemma BeforeBlocks(value: string, jar: seq<(string, string)>)
    requires ';' !in value
    ensures Before(value + Blocks(jar), ';') == value
    decreases |value|
  {
    if |value| > 0 {
      assert (value + Blocks(jar))[1..] == value[1..] + Blocks(jar);
      BeforeBlocks(value[1..], jar);
    }
  }

  lemma JarTail(jar: seq<(string, string)>)
    requires |jar| > 0 && JarOk(jar)
    ensures JarOk(jar[1..])
    ensures forall l :: 0 <= l < |jar| - 1 ==> jar[1..][l] == jar[l + 1]
  {
  }

  /** Occurrences in a jar's blocks: at the start when the first name matches, else in the rest. */
  lemma BlocksOccurrences(jar: seq<(string, string)>, name: string, i: int)
    requires |jar| > 0 && NameOk(jar[0].0) && ';' !in jar[0].1 && NameOk(name)
    ensures var b := Sep(jar[0].0) + jar[0].1;
      OccursAt(Blocks(jar), Sep(name), i) <==>
        (i == 0 && jar[0].0 == name) || (i >= |b| && OccursAt(Blocks(jar[1..]), Sep(name), i - |b|))
  {
    BlockOccurrences(jar[0].0, jar[0].1, Blocks(jar[1..]), name, i);
  }

  lemma {:induction false} BlocksAbsent(jar: seq<(string, string)>, name: string)
    requires JarOk(jar) && NameOk(name)
    requires forall k :: 0 <= k < |jar| ==> jar[k].0 != name
    ensures forall i :: !OccursAt(Blocks(jar), Sep(name), i)
    decreases |jar|
  {
    if |jar| > 0 {
      JarTail(jar);
      BlocksAbsent(jar[1..], name);
      forall i ensures !OccursAt(Blocks(jar), Sep(name), i) {
        BlocksOccurrences(jar, name, i);
      }
    }
  }

  /** The name is the first in the jar: found at the start, and nowhere else. */
  lemma BlocksFoundFirst(jar: seq<(string, string)>, name: string)
    requires JarOk(jar) && NameOk(name) && |jar| > 0 && jar[0].0 == name
    ensures forall j :: OccursAt(Blocks(jar), Sep(name), j) <==> j == 0
    ensures Before(Blocks(jar)[|Sep(name)|..], ';') == jar[0].1
  {
    var rest := jar[1..];
    JarTail(jar);
    assert forall l :: 0 <= l < |rest| ==> rest[l].0 != name;
    BlocksAbsent(rest, name);
    OnlyAtStart(jar, name);
    ValueAtStart(jar, name);
  }

  lemma OnlyAtStart(jar: seq<(string, string)>, name: string)
    requires JarOk(jar) && NameOk(name) && |jar| > 0 && jar[0].0 == name
    requires forall i :: !OccursAt(Blocks(jar[1..]), Sep(name), i)
    ensures forall j :: OccursAt(Blocks(jar), Sep(name), j) <==> j == 0
  {
    forall j ensures OccursAt(Blocks(jar), Sep(name), j) <==> j == 0 {
      BlocksOccurrences(jar, name, j);
    }
  }

  lemma ValueAtStart(jar: seq<(string, string)>, name: string)
    requires |jar| > 0 && jar[0].0 == name && ';' !in jar[0].1
    ensures Before(Blocks(jar)[|Sep(name)|..], ';') == jar[0].1
  {
    var after := jar[0].1 + Blocks(jar[1..]);
    assert Blocks(jar) == Sep(name) + after;
    DropPrefix(Sep(name), after);
    BeforeBlocks(jar[0].1, jar[1..]);
  }

  lemma DropPrefix(a: string, b: string)
    ensures (a + b)[|a|..] == b
  {
  }

  /** Where the block of pair `k` starts in Blocks(jar). */
  function BlockStart(jar: seq<(string, string)>, k: nat): (r: nat)
    requires k < |jar|
    ensures r <= |Blocks(jar)|
    decreases k
  {
    if k == 0 then 0 else |Sep(jar[0].0) + jar[0].1| + BlockStart(jar[1..], k - 1)
  }

  /** A name set once is found once, at the start of its block. */
  lemma {:induction false} BlocksFound(jar: seq<(string, string)>, name: string, k: nat)
    requires JarOk(jar) && NameOk(name) && k < |jar| && jar[k].0 == name
    ensures OccursAt(Blocks(jar), Sep(name), BlockStart(jar, k))
    ensures forall j :: OccursAt(Blocks(jar), Sep(name), j) ==> j == BlockStart(jar, k)
    ensures Blocks(jar)[BlockStart(jar, k)..] == Blocks(jar[k..])
    decreases k
  {
    if k == 0 {
      BlocksFoundFirst(jar, name);
      assert jar[0..] == jar;
    } else {
      var rest := jar[1..];
      JarTail(jar);
      assert rest[k - 1] == jar[k];
      BlocksFound(rest, name, k - 1);
      var b := |Sep(jar[0].0) + jar[0].1|;
      BlocksAfterFirst(jar, name, b);
      Shifted(Blocks(jar), Blocks(rest), Sep(name), b, BlockStart(rest, k - 1), Blocks(rest[k - 1..]));
      assert rest[k - 1..] == jar[k..];
    }
  }

  /** When the first name differs, the occurrences are those of the rest, shifted by the first
      block. */
  lemma BlocksAfterFirst(jar: seq<(string, string)>, name: string, b: nat)
    requires |jar| > 0 && NameOk(jar[0].0) && ';' !in jar[0].1 && NameOk(name) && jar[0].0 != name
    requires b == |Sep(jar[0].0) + jar[0].1|
    ensures b <= |Blocks(jar)| && Blocks(jar)[b..] == Blocks(jar[1..])
    ensures forall j :: OccursAt(Blocks(jar), Sep(name), j) <==> j >= b && OccursAt(Blocks(jar[1..]), Sep(name), j - b)
  {
    forall j ensures OccursAt(Blocks(jar), Sep(name), j) <==> j >= b && OccursAt(Blocks(jar[1..]), Sep(name), j - b) {
      OccursAfterFirst(jar, name, b, j);
    }
    BlocksSuffix(jar, b);
  }

  lemma OccursAfterFirst(jar: seq<(string, string)>, name: string, b: nat, j: int)
    requires |jar| > 0 && NameOk(jar[0].0) && ';' !in jar[0].1 && NameOk(name) && jar[0].0 != name
    requires b == |Sep(jar[0].0) + jar[0].1|
    ensures OccursAt(Blocks(jar), Sep(name), j) <==> j >= b && OccursAt(Blocks(jar[1..]), Sep(name), j - b)
  {
    BlocksOccurrences(jar, name, j);
  }

  /** What follows the first block is the rest of the blocks. */
  lemma BlocksSuffix(jar: seq<(string, string)>, b: nat)
    requires |jar| > 0 && b == |Sep(jar[0].0) + jar[0].1|
    ensures b <= |Blocks(jar)| && Blocks(jar)[b..] == Blocks(jar[1..])
  {
    assert Blocks(jar) == Sep(jar[0].0) + jar[0].1 + Blocks(jar[1..]);
  }

  /** A single occurrence in a suffix is a single occurrence in the whole string, followed by the
      same text. */
  lemma Shifted(all: string, tail: string, sep: string, b: nat, i': int, after: string)
    requires b <= |all| && all[b..] == tail
    requires forall j :: OccursAt(all, sep, j) <==> j >= b && OccursAt(tail, sep, j - b)
    requires OccursAt(tail, sep, i') && forall j :: OccursAt(tail, sep, j) ==> j == i'
    requires tail[i'..] == after
    ensures OccursAt(all, sep, b + i') && forall j :: OccursAt(all, sep, j) ==> j == b + i'
    ensures all[b + i'..] == after
  {
    assert OccursAt(tail, sep, b + i' - b);
    assert all[b + i'..] == tail[i'..];
  }

  /** Reading back a cookie jar: a name set once is found with its value; a name not set gives
      null. */
  lemma GetCookieRoundTrip(jar: seq<(string, string)>, name: string)
    requires JarOk(jar) && NameOk(name)
    ensures forall k :: 0 <= k < |jar| && jar[k].0 == name ==> GetCookie(Render(jar), name) == Some(jar[k].1)
    ensures (forall k :: 0 <= k < |jar| ==> jar[k].0 != name) ==> GetCookie(Render(jar), name).None?
  {
    GetCookieSpec(Render(jar), name);
    if |jar| == 0 {
      assert forall i :: !OccursAt("; " + Render(jar), Sep(name), i);
    } else {
      RenderBlocks(jar);
      if forall k :: 0 <= k < |jar| ==> jar[k].0 != name {
        BlocksAbsent(jar, name);
      }
      forall k | 0 <= k < |jar| && jar[k].0 == name ensures GetCookie(Render(jar), name) == Some(jar[k].1) {
        BlocksFound(jar, name, k);
        assert OccursAt(Blocks(jar), Sep(name), BlockStart(jar, k));
        ValueAtStart(jar[k..], name);
      }
    }
  }
}
