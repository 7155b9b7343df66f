/** MQTT topic filters: the character-walking matcher against the level-by-level
    rules of MQTT 3.1.1 section 4.7. Strings hold no NUL; reading one past the end
    gives NUL, as in C. */
module MqttTopic {
  // ----- the rules, level by level -----

  /** Length of the first level. */
  function LevelEnd(s: string): (k: nat)
    ensures k <= |s| && (k < |s| ==> s[k] == '/') && forall i :: 0 <= i < k ==> s[i] != '/'
  {
    if s == "" || s[0] == '/' then 0 else 1 + LevelEnd(s[1..])
  }

  /** The levels between slashes; there is always at least one. */
  function Levels(s: string): (r: seq<string>)
    ensures |r| >= 1
    decreases |s|
  {
    var k := LevelEnd(s);
    if k == |s| then [s] else [s[..k]] + Levels(s[k + 1..])
  }

  /** '#' matches what is left, including nothing; '+' matches one level. */
  function LevelsMatch(f: seq<string>, t: seq<string>): bool {
    if f == [] then t == []
    else if f[0] == "#" then true
    else t != [] && (f[0] == "+" || f[0] == t[0]) && LevelsMatch(f[1..], t[1..])
  }

  predicate Wild(level: string) { level == "+" || level == "#" }

  /** A topic starting with '$' is not matched by a filter starting with a wildcard. */
  predicate Matches(f: string, t: string) {
    !(t != "" && t[0] == '$' && Wild(Levels(f)[0])) && LevelsMatch(Levels(f), Levels(t))
  }

  /** A wildcard fills its level, and '#' is the last one. */
  predicate LevelOk(level: string, last: bool) {
    ('+' in level ==> level == "+") && ('#' in level ==> level == "#" && last)
  }

  predicate LevelsOk(f: seq<string>) {
    f == [] || (LevelOk(f[0], |f| == 1) && LevelsOk(f[1..]))
  }

  predicate ValidFilter(f: string) { f != "" && LevelsOk(Levels(f)) }

  // ----- the code, character by character -----

  function At(s: string, i: nat): char { if i < |s| then s[i] else '\0' }

  predicate NulFree(s: string) { '\0' !in s }

  ghost predicate CharOk(f: string, i: nat)
    requires i < |f|
  {
    var start := i == 0 || f[i - 1] == '/';
    && (f[i] == '+' ==> start && (i + 1 == |f| || f[i + 1] == '/'))
    && (f[i] == '#' ==> start && i + 1 == |f|)
  }

  ghost predicate CharsOk(f: string) { forall i :: 0 <= i < |f| ==> CharOk(f, i) }

  method IsValidFilter(f: string) returns (ok: bool)
    requires NulFree(f)
    ensures ok == ValidFilter(f)
  {
    if |f| == 0 { return false; }
    var p := 0;
    CharsLevels(f);
    while p < |f|
      invariant p <= |f| && forall i :: 0 <= i < p ==> CharOk(f, i)
    {
      var levelStart := p == 0 || f[p - 1] == '/';
      var levelEnd := At(f, p + 1) == '\0' || At(f, p + 1) == '/';
      assert p + 1 < |f| ==> f[p + 1] in f;
      if f[p] == '+' && !(levelStart && levelEnd) {
        assert !CharOk(f, p);
        return false;
      }
      if f[p] == '#' && !(levelStart && At(f, p + 1) == '\0') {
        assert !CharOk(f, p);
        return false;
      }
      p := p + 1;
    }
    return true;
  }

  lemma LevelChars(f: string, k: nat)
    requires k == LevelEnd(f)
    ensures LevelOk(f[..k], k == |f|) <==> forall i :: 0 <= i < k ==> CharOk(f, i)
  {
    var level := f[..k];
    if LevelOk(level, k == |f|) {
      forall i | 0 <= i < k ensures CharOk(f, i) {
        assert f[i] == level[i] && level[i] in level;
      }
    }
    if forall i :: 0 <= i < k ==> CharOk(f, i) {
      if '+' in level {
        var i :| 0 <= i < k && level[i] == '+';
        assert CharOk(f, i);
        assert level == "+";
      }
      if '#' in level {
        var i :| 0 <= i < k && level[i] == '#';
        assert CharOk(f, i);
        assert level == "#";
      }
    }
  }

  /** Checking characters is checking levels. */
  lemma {:induction false} CharsLevels(f: string)
    ensures CharsOk(f) <==> LevelsOk(Levels(f))
    decreases |f|
  {
    var k := LevelEnd(f);
    LevelChars(f, k);
    if k == |f| {
      assert f[..k] == f;
      assert LevelsOk([f]) <==> LevelOk(f, true);
    } else {
      var rest := f[k + 1..];
      CharsLevels(rest);
      assert Levels(f)[1..] == Levels(rest);
      assert CharOk(f, k);
      if CharsOk(f) {
        forall i | 0 <= i < |rest| ensures CharOk(rest, i) {
          assert CharOk(f, k + 1 + i);
        }
      }
      if CharsOk(rest) && forall i :: 0 <= i < k ==> CharOk(f, i) {
        forall i | 0 <= i < |f| ensures CharOk(f, i) {
          if i > k {
            assert CharOk(rest, i - (k + 1));
          }
        }
      }
    }
  }

  /** The first position at or after i that ends a level. */
  function LevelStop(s: string, i: nat): (r: nat)
    requires i <= |s|
    ensures i <= r <= |s| && (r < |s| ==> s[r] == '/') && forall j :: i <= j < r ==> s[j] != '/'
  {
    i + LevelEnd(s[i..])
  }

  /** One level of a suffix. */
  lemma SuffixLevels(s: string, i: nat)
    requires i <= |s|
    ensures var r := LevelStop(s, i); var ls := Levels(s[i..]);
      && ls[0] == s[i..r]
      && (r == |s| ==> ls == [s[i..r]]) && (r < |s| ==> ls[1..] == Levels(s[r + 1..]) && |ls| > 1)
  {
    var k := LevelEnd(s[i..]);
    assert s[i..][..k] == s[i..i + k];
    if k < |s[i..]| {
      assert s[i..][k + 1..] == s[i + k + 1..];
    }
  }

  lemma StopUnique(s: string, i: nat, r: nat)
    requires i <= r <= |s| && (r < |s| ==> s[r] == '/') && forall j :: i <= j < r ==> s[j] != '/'
    ensures r == LevelStop(s, i)
  {
    var q := LevelStop(s, i);
    var atQ, atR := At(s, q), At(s, r);
  }

  /** Compares one literal level; says whether both levels ended together. */
  method SameLevel(f: string, i: nat, t: string, j: nat) returns (same: bool, i': nat, j': nat)
    requires NulFree(f) && NulFree(t) && i <= |f| && j <= |t|
    ensures i <= i' <= |f| && j <= j' <= |t|
    ensures same <==> f[i..LevelStop(f, i)] == t[j..LevelStop(t, j)]
    ensures same ==> i' == LevelStop(f, i) && j' == LevelStop(t, j)
  {
    i', j' := i, j;
    ghost var p, q := LevelStop(f, i), LevelStop(t, j);
    while i' < |f| && At(f, i') != '/' && j' < |t| && At(t, j') != '/'
      invariant i <= i' <= p && j <= j' <= q && i' - i == j' - j && f[i..i'] == t[j..j']
      decreases |f| - i'
    {
      if At(f, i') != At(t, j') {
        if p - i == q - j {
          assert f[i..p][i' - i] == f[i'] && t[j..q][i' - i] == t[j'];
        }
        return false, i', j';
      }
      assert f[i..i' + 1] == f[i..i'] + [f[i']] && t[j..j' + 1] == t[j..j'] + [t[j']];
      i', j' := i' + 1, j' + 1;
    }
    if (At(f, i') != '\0' && At(f, i') != '/') || (At(t, j') != '\0' && At(t, j') != '/') {
      assert p - i != q - j;
      return false, i', j';
    }
    Ends(f, i', p);
    Ends(t, j', q);
    return true, i', j';
  }

  lemma Ends(s: string, i: nat, p: nat)
    requires NulFree(s) && i <= p <= |s| && (At(s, i) == '\0' || At(s, i) == '/') && forall k :: i <= k < p ==> s[k] != '/'
    ensures i == p
  {
    assert i < |s| ==> s[i] in s;
  }

  /** The levels after one that ends at p. */
  function Rest(s: string, p: nat): seq<string> {
    if p < |s| then Levels(s[p + 1..]) else []
  }

  /** One level of filter and topic. */
  lemma OneLevel(f: string, i: nat, t: string, j: nat)
    requires i <= |f| && j <= |t| && LevelsOk(Levels(f[i..]))
    ensures var p, q := LevelStop(f, i), LevelStop(t, j); var m := LevelsMatch(Levels(f[i..]), Levels(t[j..]));
      && LevelsOk(Rest(f, p))
      && (At(f, i) == '#' ==> m)
      && (At(f, i) == '+' ==> p == i + 1 && m == LevelsMatch(Rest(f, p), Rest(t, q)))
      && (At(f, i) != '#' && At(f, i) != '+' ==> m == (f[i..p] == t[j..q] && LevelsMatch(Rest(f, p), Rest(t, q))))
  {
    hide Levels, LevelEnd, LevelOk, LevelStop;
    SuffixLevels(f, i);
    SuffixLevels(t, j);
    FirstChar(f, i);
    RestTail(f, i);
    RestTail(t, j);
  }

  lemma RestTail(s: string, i: nat)
    requires i <= |s|
    ensures Levels(s[i..])[1..] == Rest(s, LevelStop(s, i))
  {
    hide Levels;
    SuffixLevels(s, i);
  }

  /** The matcher. */
  method TopicMatch(f: string, t: string) returns (m: bool)
    requires NulFree(f) && NulFree(t) && ValidFilter(f)
    ensures m == Matches(f, t)
  {
    hide Levels, LevelEnd, LevelsMatch, LevelsOk, LevelStop, NulFree;
    FirstWild(f);
    if At(t, 0) == '$' && (At(f, 0) == '+' || At(f, 0) == '#') { return false; }
    var i, j := 0, 0;
    assert f[0..] == f && t[0..] == t;
    while true
      invariant i <= |f| && j <= |t| && LevelsOk(Levels(f[i..]))
      invariant Matches(f, t) == LevelsMatch(Levels(f[i..]), Levels(t[j..]))
      decreases |t| - j
    {
      OneLevel(f, i, t, j);
      if At(f, i) == '#' { return true; }
      var p, q := i, j;
      if At(f, i) == '+' {
        while q < |t| && At(t, q) != '/'
          invariant j <= q <= LevelStop(t, j)
          decreases |t| - q
        {
          q := q + 1;
        }
        StopUnique(t, j, q);
        p := p + 1;
      } else {
        var same;
        same, p, q := SameLevel(f, i, t, j);
        if !same { return false; }
      }
      if q == |t| {
        TopicEnds(f, p);
        return p == |f| || f[p..] == "/#";
      }
      if At(f, p) != '/' {
        FilterEnds(f, p, t, q);
        return false;
      }
      i, j := p + 1, q + 1;
    }
  }

  lemma FilterEnds(f: string, p: nat, t: string, q: nat)
    requires p <= |f| && (p < |f| ==> f[p] == '/') && q < |t| && At(f, p) != '/'
    ensures !LevelsMatch(Rest(f, p), Rest(t, q))
  {
  }

  /** In a valid filter a level starts with a wildcard only if it is one. */
  lemma FirstChar(f: string, i: nat)
    requires i <= |f| && LevelsOk(Levels(f[i..]))
    ensures At(f, i) == '#' <==> Levels(f[i..])[0] == "#"
    ensures At(f, i) == '+' <==> Levels(f[i..])[0] == "+"
    ensures At(f, i) == '+' ==> LevelStop(f, i) == i + 1
    ensures LevelsOk(Levels(f[i..])[1..])
  {
    SuffixLevels(f, i);
    var r := LevelStop(f, i);
    var level := f[i..r];
    if i < r {
      assert level[0] == f[i] && level[0] in level;
    }
  }

  lemma FirstWild(f: string)
    requires ValidFilter(f)
    ensures (At(f, 0) == '+' || At(f, 0) == '#') <==> Wild(Levels(f)[0])
    ensures LevelsOk(Levels(f))
  {
    assert f[0..] == f;
    FirstChar(f, 0);
  }

  /** '#' can only be all that is left. */
  lemma HashOnly(rest: string)
    requires LevelsOk(Levels(rest))
    ensures Levels(rest)[0] == "#" <==> rest == "#"
  {
    var k := LevelEnd(rest);
    assert rest[..k] == Levels(rest)[0];
    assert '#' in "#";
    if rest == "#" {
      assert rest[1..] == "";
    }
  }

  /** When the topic is used up, what is left of the filter must be nothing or "/#". */
  lemma TopicEnds(f: string, p: nat)
    requires p <= |f| && (p < |f| ==> f[p] == '/') && LevelsOk(Rest(f, p))
    ensures LevelsMatch(Rest(f, p), []) <==> (p == |f| || f[p..] == "/#")
  {
    hide Levels;
    if p < |f| {
      var rest := f[p + 1..];
      assert f[p..] == ['/'] + rest;
      HashOnly(rest);
    }
  }
}
