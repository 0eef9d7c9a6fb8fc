/** Matching module names against patterns. */
module Wildcards {
  // `*` stands for any run of characters and `?` for any one.
  ghost predicate Matches(wild: string, str: string)
    decreases |wild|
  {
    if wild == [] then str == []
    else if wild[0] == '*' then exists k :: 0 <= k <= |str| && Matches(wild[1..], str[k..])
    else str != [] && (wild[0] == '?' || wild[0] == str[0]) && Matches(wild[1..], str[1..])
  }

  predicate StarFree(wild: string) {
    forall i :: 0 <= i < |wild| ==> wild[i] != '*'
  }

  // `wild` matches a tail of `str` that starts at or after `from`.
  ghost predicate Later(wild: string, str: string, from: nat) {
    exists k :: from <= k <= |str| && Matches(wild, str[k..])
  }

  // ---------- Facts about matching ----------

  lemma {:induction false} StarMatches(wild: string, str: string)
    requires wild != [] && wild[0] == '*'
    ensures Matches(wild, str) <==> Later(wild[1..], str, 0)
  {
  }

  lemma {:induction false} CharMatches(wild: string, str: string)
    requires wild != [] && wild[0] != '*'
    ensures Matches(wild, str) <==> str != [] && (wild[0] == '?' || wild[0] == str[0]) && Matches(wild[1..], str[1..])
  {
  }

  // ---------- What determines matching ----------

  lemma {:induction false} OneSign(c: char, str: string)
    ensures Matches([], str) <==> str == []
    ensures Matches([c], str) <==> c == '*' || (|str| == 1 && (c == '?' || str[0] == c))
  {
    assert [c][1..] == [];
    if c == '*' {
      assert Matches([], str[|str|..]);
    } else if str != [] {
      assert Matches([], str[1..]) <==> |str| == 1;
    }
  }

  // `a` matches a beginning and `b` the rest.
  ghost predicate MatchedAt(a: string, b: string, str: string, i: nat) {
    i <= |str| && Matches(a, str[..i]) && Matches(b, str[i..])
  }

  // A pattern in two parts matches what the parts match one behind the other.
  lemma {:induction false} MatchesConcat(a: string, b: string, str: string)
    ensures Matches(a + b, str) <==> exists i: nat :: MatchedAt(a, b, str, i)
  {
    hide Matches;
    if Matches(a + b, str) {
      var i := SplitMatch(a, b, str);
    }
    forall i: nat | MatchedAt(a, b, str, i) ensures Matches(a + b, str) {
      JoinMatch(a, b, str, i);
    }
  }

  lemma {:induction false} SplitMatch(a: string, b: string, str: string) returns (i: nat)
    requires Matches(a + b, str)
    ensures MatchedAt(a, b, str, i)
    decreases |a|
  {
    if a == [] {
      i := 0;
      assert a + b == b && str[0..] == str && str[..0] == [];
    } else {
      assert (a + b)[1..] == a[1..] + b;
      var k := 1;
      if a[0] == '*' {
        k :| 0 <= k <= |str| && Matches(a[1..] + b, str[k..]);
      }
      var j := SplitMatch(a[1..], b, str[k..]);
      i := k + j;
      assert str[..i][k..] == str[k..][..j] && str[i..] == str[k..][j..];
    }
  }

  lemma {:induction false} JoinMatch(a: string, b: string, str: string, i: nat)
    requires MatchedAt(a, b, str, i)
    ensures Matches(a + b, str)
    decreases |a|
  {
    if a == [] {
      assert a + b == b && str[0..] == str;
    } else {
      assert (a + b)[1..] == a[1..] + b;
      var k := 1;
      if a[0] == '*' {
        k :| 0 <= k <= i && Matches(a[1..], str[..i][k..]);
      }
      assert str[..i][k..] == str[k..][..i - k] && str[i..] == str[k..][i - k..];
      JoinMatch(a[1..], b, str[k..], i - k);
    }
  }

  // A star-free beginning takes exactly its own length.
  lemma {:induction false} StarFreePrefix(a: string, b: string, str: string)
    requires StarFree(a) && Matches(a + b, str)
    ensures |a| <= |str| && Matches(b, str[|a|..])
    decreases |a|
  {
    if a == [] {
      assert a + b == b && str[0..] == str;
    } else {
      CharMatches(a + b, str);
      assert (a + b)[1..] == a[1..] + b;
      StarFreePrefix(a[1..], b, str[1..]);
      assert str[1..][|a| - 1..] == str[|a|..];
    }
  }

  lemma {:induction false} LaterTail(wild: string, str: string, at: nat, from: nat)
    requires at + from <= |str|
    ensures Later(wild, str[at..], from) <==> Later(wild, str, at + from)
  {
    if Later(wild, str[at..], from) {
      var k :| from <= k <= |str[at..]| && Matches(wild, str[at..][k..]);
      assert str[at..][k..] == str[at + k..];
    }
    if Later(wild, str, at + from) {
      var k :| at + from <= k <= |str| && Matches(wild, str[k..]);
      assert str[at..][k - at..] == str[k..];
    }
  }

  // What matches from a later place on matches from here on.
  lemma {:induction false} LaterSooner(wild: string, str: string, from: nat, sooner: nat)
    requires sooner <= from && Later(wild, str, from)
    ensures Later(wild, str, sooner)
  {
    var k :| from <= k <= |str| && Matches(wild, str[k..]);
  }

  lemma {:induction false} LaterStep(wild: string, str: string, from: nat)
    requires from <= |str|
    ensures Later(wild, str, from) <==> Matches(wild, str[from..]) || Later(wild, str, from + 1)
  {
  }

  // Having come to a star, giving the star before it more cannot help.
  lemma {:induction false} LastStarDecides(wild: string, str: string, mp: nat, w: nat, cp: nat, s: nat)
    requires mp <= w < |wild| && wild[w] == '*' && StarFree(wild[mp..w])
    requires 1 <= cp && s <= |str| && s - (cp - 1) == w - mp && Later(wild[mp..], str, cp)
    ensures Matches(wild[w..], str[s..])
  {
    var k :| cp <= k <= |str| && Matches(wild[mp..], str[k..]);
    var a, b := wild[mp..w], wild[w..];
    assert wild[mp..] == a + b;
    StarFreePrefix(a, b, str[k..]);
    var k' := k + |a|;
    assert str[k..][|a|..] == str[k'..];
    StarMatches(b, str[k'..]);
    LaterTail(b[1..], str, k', 0);
    LaterSooner(b[1..], str, k', s);
    LaterTail(b[1..], str, s, 0);
    StarMatches(b, str[s..]);
  }

  // With the string used up, starting later leaves too few characters.
  lemma {:induction false} NoneLater(wild: string, str: string, mp: nat, w: nat, cp: nat)
    requires mp <= w <= |wild| && StarFree(wild[mp..w]) && 1 <= cp && |str| - (cp - 1) == w - mp
    ensures !Later(wild[mp..], str, cp)
  {
    if Later(wild[mp..], str, cp) {
      var k :| cp <= k <= |str| && Matches(wild[mp..], str[k..]);
      assert wild[mp..] == wild[mp..w] + wild[w..];
      StarFreePrefix(wild[mp..w], wild[w..], str[k..]);
    }
  }

  lemma {:induction false} LoneStar(str: string)
    ensures Matches("*", str)
  {
    assert "*"[1..] == [] && str[|str|..] == [];
    assert Matches("*"[1..], str[|str|..]);
  }

  // ---------- wildcmp ----------

  // Whether what is left to compare decides the whole comparison: the rest matches here
  // or the part after the last star matches from `cp` on.
  ghost predicate Decides(wild: string, str: string, w: nat, s: nat, star: bool, mp: nat, cp: nat)
    requires w <= |wild| && s <= |str| && mp <= |wild|
  {
    Matches(wild, str) <==> Matches(wild[w..], str[s..]) || (star && Later(wild[mp..], str, cp))
  }

  // Only the last star is ever returned to, and that is enough.
  method Wildcmp(wild: string, str: string) returns (r: bool)
    ensures r <==> Matches(wild, str)
  {
    hide Matches, Later;
    var w, s := 0, 0;
    assert wild[0..] == wild && str[0..] == str;
    while s < |str| && !(w < |wild| && wild[w] == '*')
      invariant w <= |wild| && s <= |str|
      invariant Matches(wild, str) <==> Matches(wild[w..], str[s..])
    {
      if w == |wild| {
        EndMatches(str[s..]);
        assert wild[w..] == [];
        return false;
      }
      CharMatches(wild[w..], str[s..]);
      if wild[w] != str[s] && wild[w] != '?' {
        return false;
      }
      assert wild[w..][1..] == wild[w + 1..] && str[s..][1..] == str[s + 1..];
      w, s := w + 1, s + 1;
    }
    var mp, cp := 0, 0;
    ghost var star := false;
    while s < |str|
      invariant w <= |wild| && s <= |str| && mp <= w && cp <= s + 1
      invariant Decides(wild, str, w, s, star, mp, cp)
      invariant !star ==> mp == 0 && cp == 0 && (s < |str| ==> w < |wild| && wild[w] == '*')
      invariant star ==> 1 <= mp && 1 <= cp && s - (cp - 1) == w - mp && StarFree(wild[mp..w])
      decreases |wild| - mp, |str| - cp, |str| - s
    {
      if w < |wild| && wild[w] == '*' {
        StarStep(wild, str, w, s, star, mp, cp);
        if w + 1 == |wild| {
          LoneStar(str[s..]);
          assert wild[w..] == "*";
          return true;
        }
        w := w + 1;
        star, mp, cp := true, w, s + 1;
      } else if w < |wild| && (wild[w] == str[s] || wild[w] == '?') {
        CharMatches(wild[w..], str[s..]);
        assert wild[w..][1..] == wild[w + 1..] && str[s..][1..] == str[s + 1..];
        assert wild[mp..w + 1] == wild[mp..w] + [wild[w]];
        w, s := w + 1, s + 1;
      } else {
        Mismatch(wild, str, w, s);
        LaterStep(wild[mp..], str, cp);
        w, s, cp := mp, cp, cp + 1;
      }
    }
    if star {
      NoneLater(wild, str, mp, w, cp);
    }
    assert str[s..] == [];
    while w < |wild| && wild[w] == '*'
      invariant w <= |wild| && (Matches(wild, str) <==> Matches(wild[w..], []))
    {
      StarOnEmpty(wild[w..]);
      assert wild[w..][1..] == wild[w + 1..];
      w := w + 1;
    }
    RestOnEmpty(wild[w..]);
    return w == |wild|;
  }

  lemma {:induction false} EndMatches(str: string)
    ensures Matches([], str) <==> str == []
  {
  }

  lemma {:induction false} StarOnEmpty(wild: string)
    requires wild != [] && wild[0] == '*'
    ensures Matches(wild, []) <==> Matches(wild[1..], [])
  {
    var none: string := [];
    assert none[0..] == none;
  }

  lemma {:induction false} RestOnEmpty(wild: string)
    requires wild != [] ==> wild[0] != '*'
    ensures Matches(wild, []) <==> wild == []
  {
  }

  lemma {:induction false} Mismatch(wild: string, str: string, w: nat, s: nat)
    requires w <= |wild| && s < |str| && !(w < |wild| && (wild[w] == '*' || wild[w] == str[s] || wild[w] == '?'))
    ensures !Matches(wild[w..], str[s..])
  {
    if w < |wild| {
      CharMatches(wild[w..], str[s..]);
    } else {
      assert wild[w..] == [];
    }
  }

  // At a star the comparison comes down to the part behind it.
  lemma {:induction false} StarStep(wild: string, str: string, w: nat, s: nat, star: bool, mp: nat, cp: nat)
    requires mp <= w < |wild| && s <= |str| && wild[w] == '*' && Decides(wild, str, w, s, star, mp, cp)
    requires star ==> 1 <= cp && s - (cp - 1) == w - mp && StarFree(wild[mp..w])
    ensures Matches(wild, str) <==> Matches(wild[w..], str[s..])
    ensures Decides(wild, str, w + 1, s, true, w + 1, s + 1)
  {
    hide Matches, Later;
    if star && Later(wild[mp..], str, cp) {
      LastStarDecides(wild, str, mp, w, cp, s);
    }
    StarMatches(wild[w..], str[s..]);
    assert wild[w..][1..] == wild[w + 1..];
    LaterTail(wild[w + 1..], str, s, 0);
    LaterStep(wild[w + 1..], str, s);
  }
}
