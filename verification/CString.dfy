/** Terminated strings in character arrays (lib/string.c). */
module CString {
  /** The elements before the first `end`, or all if there is none. */
  function Until<T(==)>(s: seq<T>, end: T): (t: seq<T>)
    ensures t <= s && end !in t
    ensures |t| < |s| ==> s[|t|] == end
    ensures end in s ==> |t| < |s|
  {
    if s == [] || s[0] == end then []
    else
      var t := Until(s[1..], end);
      assert s == [s[0]] + s[1..];
      [s[0]] + t
  }

  /** What comes before the first `end` behind a text without one. */
  lemma {:induction false} UntilPast<T>(s: seq<T>, t: seq<T>, end: T)
    requires |t| <= |s| && s[..|t|] == t && end !in t
    ensures Until(s, end) == t + Until(s[|t|..], end)
    decreases |t|
  {
    if t == [] {
      assert s[0..] == s;
    } else {
      WithoutFirst(s, t);
      UntilPast(s[1..], t[1..], end);
    }
  }

  lemma WithoutFirst<T>(s: seq<T>, t: seq<T>)
    requires 0 < |t| <= |s| && s[..|t|] == t
    ensures s[0] == t[0] && t == [t[0]] + t[1..]
    ensures s[1..][..|t| - 1] == t[1..] && s[1..][|t| - 1..] == s[|t|..]
  {
    assert s[0] == s[..|t|][0];
    assert s[1..][..|t| - 1] == s[..|t|][1..];
  }

  lemma UntilOf<T>(t: seq<T>, rest: seq<T>, end: T)
    requires end !in t && (rest != [] ==> rest[0] == end)
    ensures Until(t + rest, end) == t
  {
    UntilPast(t + rest, t, end);
    assert (t + rest)[|t|..] == rest;
  }

  function Reverse(s: seq<char>): (r: seq<char>)
    ensures |r| == |s| && forall i :: 0 <= i < |s| ==> r[i] == s[|s| - 1 - i]
  {
    if s == [] then [] else Reverse(s[1..]) + [s[0]]
  }

  lemma ReverseTwice(s: seq<char>)
    ensures Reverse(Reverse(s)) == s
  {
  }

  /** strlen of the string at `at`. */
  method Strlen(s: array<char>, at: nat) returns (len: nat)
    requires at <= s.Length && '\0' in s[at..]
    ensures len == |Until(s[at..], '\0')|
  {
    len := 0;
    ghost var t := Until(s[at..], '\0');
    while s[at + len] != '\0'
      invariant len <= |t| && at + |t| < s.Length
      decreases |t| - len
    {
      assert s[at..][len] != s[at..][|t|];
      len := len + 1;
    }
  }

  /** Character k while the n characters from `at` on are being turned around, after
      i swaps from both ends. */
  function Turned(s: seq<char>, at: nat, n: nat, i: nat, k: nat): (c: char)
    requires at + n <= |s| && k < |s| && 2 * i <= n + 1
  {
    var j := k - at;
    if 0 <= j < i || (n - i <= j < n) then s[at + n - 1 - j] else s[k]
  }

  lemma TurnedAll(s: seq<char>, r: seq<char>, at: nat, n: nat, i: nat)
    requires at + n <= |s| == |r| && n - 1 <= 2 * i <= n + 1
    requires forall k :: 0 <= k < |s| ==> r[k] == Turned(s, at, n, i, k)
    ensures r == s[..at] + Reverse(s[at..at + n]) + s[at + n..]
  {
  }

  lemma TextIsSlice(s: seq<char>, at: nat)
    requires at <= |s|
    ensures var n := |Until(s[at..], '\0')|; at + n <= |s| && Until(s[at..], '\0') == s[at..at + n]
  {
  }

  /** strrev of the string at `at`; nothing else in the array changes. */
  method Strrev(s: array<char>, at: nat)
    requires at <= s.Length && '\0' in s[at..]
    modifies s
    ensures var t := Until(old(s[at..]), '\0');
            s[..] == old(s[..at]) + Reverse(t) + old(s[at + |t|..])
  {
    hide Until, Reverse;
    var n: int := Strlen(s, at);
    ghost var was := s[..];
    TextIsSlice(was, at);
    var i, j := 0, n - 1;
    while i < j
      invariant 0 <= i <= j + 2 && i + j == n - 1
      invariant |s[..]| == |was| && forall k :: 0 <= k < |was| ==> s[k] == Turned(was, at, n, i, k)
    {
      s[at + i], s[at + j] := s[at + j], s[at + i];
      i, j := i + 1, j - 1;
    }
    TurnedAll(was, s[..], at, n, i);
  }

  /** The text of a terminated string starts with what comes before its first
      terminator, and ends there. */
  lemma TextUpTo(s: seq<char>, i: nat)
    requires i < |s| && '\0' in s && forall k :: 0 <= k < i ==> s[k] != '\0'
    ensures i <= |Until(s, '\0')| && Until(s, '\0')[..i] == s[..i]
    ensures s[i] == '\0' ==> Until(s, '\0') == s[..i]
    ensures s[i] != '\0' ==> i < |Until(s, '\0')| && Until(s, '\0')[i] == s[i]
  {
    var t := Until(s, '\0');
    assert i < |t| ==> t[i] == s[i];
  }

  /** s comes before t: it ends first, or has the smaller character, where they
      first differ. */
  ghost predicate Before(s: seq<char>, t: seq<char>) {
    exists k :: 0 <= k <= |s| && BeforeAt(s, t, k)
  }

  predicate BeforeAt(s: seq<char>, t: seq<char>, k: nat) {
    && k <= |s| && k < |t|
    && (forall i :: 0 <= i < k ==> s[i] == t[i])
    && (k < |s| ==> s[k] < t[k])
  }

  lemma BeforeIsOneWay(s: seq<char>, t: seq<char>)
    requires Before(s, t)
    ensures s != t && !Before(t, s)
  {
    var k :| 0 <= k <= |s| && BeforeAt(s, t, k);
    forall j | 0 <= j <= |t|
      ensures !BeforeAt(t, s, j)
    {
      FirstDifference(s, t, k, j);
    }
  }

  lemma FirstDifference(s: seq<char>, t: seq<char>, k: nat, j: nat)
    requires BeforeAt(s, t, k)
    ensures !BeforeAt(t, s, j)
  {
  }

  /** strcmp of two strings: zero exactly when they are the same, and otherwise its
      sign is their order. */
  method Strcmp(a: array<char>, b: array<char>) returns (d: int)
    requires '\0' in a[..] && '\0' in b[..]
    ensures d == 0 <==> Until(a[..], '\0') == Until(b[..], '\0')
    ensures d < 0 <==> Before(Until(a[..], '\0'), Until(b[..], '\0'))
    ensures d > 0 <==> Before(Until(b[..], '\0'), Until(a[..], '\0'))
  {
    hide Until, Before;
    ghost var s, t := a[..], b[..];
    var i := 0;
    while a[i] != '\0' && a[i] == b[i]
      invariant i < |s| && i < |t| && forall k :: 0 <= k < i ==> s[k] == t[k] != '\0'
      decreases |s| - i
    {
      NotYet(s, i);
      NotYet(t, i);
      i := i + 1;
    }
    d := a[i] as int - b[i] as int;
    assert s[i] == a[i] && t[i] == b[i];
    OrderAt(s, t, i);
  }

  /** The first difference of two strings decides their order. */
  lemma OrderAt(s: seq<char>, t: seq<char>, i: nat)
    requires i < |s| && i < |t| && '\0' in s && '\0' in t
    requires forall k :: 0 <= k < i ==> s[k] == t[k] != '\0'
    requires s[i] == '\0' || s[i] != t[i]
    ensures s[i] == t[i] <==> Until(s, '\0') == Until(t, '\0')
    ensures s[i] < t[i] <==> Before(Until(s, '\0'), Until(t, '\0'))
    ensures s[i] > t[i] <==> Before(Until(t, '\0'), Until(s, '\0'))
  {
    hide Until;
    var u, v := Until(s, '\0'), Until(t, '\0');
    TextUpTo(s, i);
    TextUpTo(t, i);
    assert s[..i] == t[..i];
    if s[i] < t[i] {
      assert BeforeAt(u, v, i);
      BeforeIsOneWay(u, v);
    } else if s[i] > t[i] {
      assert BeforeAt(v, u, i);
      BeforeIsOneWay(v, u);
    } else if Before(u, v) {
      BeforeIsOneWay(u, v);
    }
  }

  lemma NotYet(s: seq<char>, i: nat)
    requires i < |s| && '\0' in s && forall k :: 0 <= k <= i ==> s[k] != '\0'
    ensures i + 1 < |s|
  {
  }
}
