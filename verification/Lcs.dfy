/** The typo-hint distance of the payload linter: a one-row dynamic program for the
    longest-common-subsequence length, proved against an embedding-based definition. */
module Lcs {

  /** `idx` places `s` inside `t`: strictly increasing positions carrying equal code units. */
  ghost predicate Embeds(s: string, t: string, idx: seq<nat>) {
    && |idx| == |s|
    && (forall k :: 0 <= k < |idx| ==> idx[k] < |t| && s[k] == t[idx[k]])
    && (forall k, l :: 0 <= k < l < |idx| ==> idx[k] < idx[l])
  }

  ghost predicate Subsequence(s: string, t: string) {
    exists idx: seq<nat> :: Embeds(s, t, idx)
  }

  ghost predicate Common(s: string, a: string, b: string) {
    Subsequence(s, a) && Subsequence(s, b)
  }

  function Max(x: nat, y: nat): nat {
    if x < y then y else x
  }

  /** Textbook recursion on the lengths of the two prefixes. */
  function Table(a: string, b: string, i: nat, j: nat): nat
    requires i <= |a| && j <= |b|
  {
    if i == 0 || j == 0 then 0
    else if a[i - 1] == b[j - 1] then Table(a, b, i - 1, j - 1) + 1
    else Max(Table(a, b, i - 1, j), Table(a, b, i, j - 1))
  }

  lemma EmptyEmbeds(t: string)
    ensures Subsequence("", t)
  {
    var none: seq<nat> := [];
    assert Embeds("", t, none);
  }

  /** Growing the host string keeps an embedding. */
  lemma Widen(s: string, t: string, i: nat)
    requires i < |t| && Subsequence(s, t[..i])
    ensures Subsequence(s, t[..i + 1])
  {
    var idx: seq<nat> :| Embeds(s, t[..i], idx);
    assert Embeds(s, t[..i + 1], idx);
  }

  lemma Extend(s: string, t: string, i: nat)
    requires i < |t| && Subsequence(s, t[..i])
    ensures Subsequence(s + [t[i]], t[..i + 1])
  {
    var idx: seq<nat> :| Embeds(s, t[..i], idx);
    var idx' := idx + [i];
    assert Embeds(s + [t[i]], t[..i + 1], idx');
  }

  /** A common subsequence of that length exists. */
  lemma {:induction false} Witness(a: string, b: string, i: nat, j: nat) returns (s: string)
    requires i <= |a| && j <= |b|
    ensures |s| == Table(a, b, i, j) && Common(s, a[..i], b[..j])
    decreases i + j
  {
    if i == 0 || j == 0 {
      s := "";
      EmptyEmbeds(a[..i]);
      EmptyEmbeds(b[..j]);
    } else if a[i - 1] == b[j - 1] {
      var w := Witness(a, b, i - 1, j - 1);
      Extend(w, a, i - 1);
      Extend(w, b, j - 1);
      s := w + [a[i - 1]];
    } else if Table(a, b, i - 1, j) < Table(a, b, i, j - 1) {
      s := Witness(a, b, i, j - 1);
      Widen(s, b, j - 1);
    } else {
      s := Witness(a, b, i - 1, j);
      Widen(s, a, i - 1);
    }
  }

  /** Dropping the last host character keeps all of `s` but possibly its last character. */
  lemma Narrow(s: string, t: string, i: nat)
    requires 0 < i <= |t| && s != "" && Subsequence(s, t[..i])
    ensures Subsequence(s[..|s| - 1], t[..i - 1])
    ensures s[|s| - 1] != t[i - 1] ==> Subsequence(s, t[..i - 1])
  {
    var idx: seq<nat> :| Embeds(s, t[..i], idx);
    var n := |s| - 1;
    assert Embeds(s[..n], t[..i - 1], idx[..n]) by {
      forall k | 0 <= k < n ensures idx[k] < i - 1 {
        assert idx[k] < idx[n] < i;
      }
    }
    if s[n] != t[i - 1] {
      assert idx[n] < i - 1;
      assert Embeds(s, t[..i - 1], idx);
    }
  }

  /** No common subsequence is longer. */
  lemma {:induction false} Bound(a: string, b: string, i: nat, j: nat, s: string)
    requires i <= |a| && j <= |b| && Common(s, a[..i], b[..j])
    ensures |s| <= Table(a, b, i, j)
    decreases i + j
  {
    if s == "" || i == 0 || j == 0 {
    } else {
      Narrow(s, a, i);
      Narrow(s, b, j);
      if a[i - 1] == b[j - 1] {
        Bound(a, b, i - 1, j - 1, s[..|s| - 1]);
      } else if s[|s| - 1] != a[i - 1] {
        Bound(a, b, i - 1, j, s);
      } else {
        Bound(a, b, i, j - 1, s);
      }
    }
  }

  /** `n` is the longest-common-subsequence length of `a` and `b`. */
  ghost predicate IsLcsLength(n: nat, a: string, b: string) {
    && (exists s :: Common(s, a, b) && |s| == n)
    && (forall s :: Common(s, a, b) ==> |s| <= n)
  }

  lemma TableIsLcs(a: string, b: string)
    ensures IsLcsLength(Table(a, b, |a|, |b|), a, b)
  {
    hide Table, Common;
    assert a[..|a|] == a && b[..|b|] == b;
    var w := Witness(a, b, |a|, |b|);
    forall s | Common(s, a, b) ensures |s| <= Table(a, b, |a|, |b|) {
      Bound(a, b, |a|, |b|, s);
    }
  }

  lemma TableEdge(a: string, b: string)
    ensures forall i :: 0 <= i <= |a| ==> Table(a, b, i, 0) == 0
    ensures forall j :: 0 <= j <= |b| ==> Table(a, b, 0, j) == 0
  {
  }

  lemma TableCell(a: string, b: string, i: nat, j: nat)
    requires 0 < i <= |a| && 0 < j <= |b|
    ensures Table(a, b, i, j) ==
      if a[i - 1] == b[j - 1] then Table(a, b, i - 1, j - 1) + 1
      else Max(Table(a, b, i - 1, j), Table(a, b, i, j - 1))
  {
  }

  /** `lcsLen`: before column j of row i, the row holds the new values left of j and the
      old ones from j on, and `prev` holds the old diagonal value. */
  method LcsLen(a: string, b: string) returns (n: nat)
    ensures IsLcsLength(n, a, b)
  {
    hide Table, IsLcsLength;
    TableIsLcs(a, b);
    TableEdge(a, b);
    if |a| == 0 || |b| == 0 {
      return 0;
    }
    var dp := new nat[|b| + 1](_ => 0);
    for i := 1 to |a| + 1
      invariant forall j :: 0 <= j <= |b| ==> dp[j] == Table(a, b, i - 1, j)
    {
      var prev := 0;
      for j := 1 to |b| + 1
        invariant prev == Table(a, b, i - 1, j - 1)
        invariant forall k :: 0 <= k < j ==> dp[k] == Table(a, b, i, k)
        invariant forall k :: j <= k <= |b| ==> dp[k] == Table(a, b, i - 1, k)
      {
        TableCell(a, b, i, j);
        var tmp := dp[j];
        if a[i - 1] == b[j - 1] {
          dp[j] := prev + 1;
        } else if dp[j - 1] > dp[j] {
          dp[j] := dp[j - 1];
        }
        prev := tmp;
      }
    }
    return dp[|b|];
  }
}
