/** Grant patterns: the glob matcher, what a pattern expands to, and what became new since a
    grant was stored. */
module AuthzPattern {

  // The meaning of a pattern: `*` matches any run, including the empty one, and every other
  // character itself.
  predicate Globs(pattern: string, name: string)
    decreases |pattern| + |name|
  {
    if pattern == "" then name == ""
    else if pattern[0] == '*' then Globs(pattern[1..], name) || (name != "" && Globs(pattern, name[1..]))
    else name != "" && pattern[0] == name[0] && Globs(pattern[1..], name[1..])
  }

  // Whether the pattern matches when its leading star swallows from position r or later.
  ghost predicate GlobsFrom(pattern: string, name: string, r: nat) {
    exists k :: r <= k <= |name| && Globs(pattern, name[k..])
  }

  lemma {:induction false} StarGlobs(pattern: string, name: string)
    requires pattern != "" && pattern[0] == '*'
    ensures Globs(pattern, name) <==> GlobsFrom(pattern[1..], name, 0)
    decreases |name|
  {
    FromNext(pattern[1..], name, 0);
    assert name[0..] == name;
    if name != "" {
      StarGlobs(pattern, name[1..]);
      Shifted(pattern[1..], name, 1, 0);
    }
  }

  // A literal run in front of the rest must stand at the front of the name.
  lemma {:induction false} LiteralGlobs(literal: string, rest: string, name: string)
    requires '*' !in literal
    ensures Globs(literal + rest, name) <==> literal <= name && Globs(rest, name[|literal|..])
    decreases |literal|
  {
    if literal == "" {
      assert literal + rest == rest && name[0..] == name;
    } else {
      assert (literal + rest)[1..] == literal[1..] + rest;
      if name != "" {
        LiteralGlobs(literal[1..], rest, name[1..]);
        assert literal <= name <==> literal[0] == name[0] && literal[1..] <= name[1..];
        if literal <= name {
          assert name[1..][|literal[1..]|..] == name[|literal|..];
        }
      }
    }
  }

  lemma {:induction false} StarsGlobEmpty(pattern: string)
    ensures Globs(pattern, "") <==> forall k :: 0 <= k < |pattern| ==> pattern[k] == '*'
  {
    if pattern != "" {
      StarsGlobEmpty(pattern[1..]);
    }
  }

  /** A later star makes backtracking to an earlier one needless: once the run between two
      stars has been found, every match that lets the first star swallow more is also a match
      from the second star on. */
  lemma {:induction false} LaterStarSuffices(literal: string, rest: string, name: string, resume: nat, ni: nat)
    requires '*' !in literal && rest != "" && rest[0] == '*'
    requires resume <= ni <= |name| && ni == resume + |literal|
    requires GlobsFrom(literal + rest, name, resume + 1)
    ensures Globs(rest, name[ni..])
  {
    var k :| resume + 1 <= k <= |name| && Globs(literal + rest, name[k..]);
    LiteralGlobs(literal, rest, name[k..]);
    StarGlobs(rest, name[k..][|literal|..]);
    var l :| 0 <= l <= |name[k..][|literal|..]| && Globs(rest[1..], name[k..][|literal|..][l..]);
    StarGlobs(rest, name[ni..]);
    assert name[k..][|literal|..][l..] == name[ni..][k - resume + l..];
  }

  ghost predicate Scanning(pattern: string, name: string, pi: nat, ni: nat, star: int, resume: nat)
    requires pi <= |pattern| && ni <= |name|
  {
    && -1 <= star < |pattern|
    && resume <= ni
    && (star >= 0 ==>
      && star < pi
      && pattern[star] == '*'
      && pattern[star + 1..pi] == name[resume..ni]
      && '*' !in pattern[star + 1..pi])
    && (Globs(pattern, name) <==>
      Globs(pattern[pi..], name[ni..]) || (star >= 0 && GlobsFrom(pattern[star + 1..], name, resume + 1)))
  }

  lemma {:induction false} NewStar(pattern: string, name: string, pi: nat, ni: nat, star: int, resume: nat)
    requires pi < |pattern| && ni <= |name| && pattern[pi] == '*'
    requires Scanning(pattern, name, pi, ni, star, resume)
    ensures Scanning(pattern, name, pi + 1, ni, pi, ni)
  {
    hide Globs;
    if star >= 0 && GlobsFrom(pattern[star + 1..], name, resume + 1) {
      assert pattern[star + 1..] == pattern[star + 1..pi] + pattern[pi..];
      LaterStarSuffices(pattern[star + 1..pi], pattern[pi..], name, resume, ni);
    }
    StarGlobs(pattern[pi..], name[ni..]);
    assert pattern[pi..][1..] == pattern[pi + 1..];
    Shifted(pattern[pi + 1..], name, ni, 0);
    FromNext(pattern[pi + 1..], name, ni);
    assert pattern[pi + 1..pi + 1] == name[ni..ni];
  }

  lemma Shifted(pattern: string, name: string, ni: nat, r: nat)
    requires ni <= |name|
    ensures GlobsFrom(pattern, name[ni..], r) <==> GlobsFrom(pattern, name, ni + r)
  {
    hide Globs;
    forall k | 0 <= k <= |name| - ni
      ensures name[ni..][k..] == name[ni + k..]
    {
    }
    if k :| ni + r <= k <= |name| && Globs(pattern, name[k..]) {
      assert name[ni..][k - ni..] == name[k..];
    }
  }

  lemma FromNext(pattern: string, name: string, r: nat)
    requires r <= |name|
    ensures GlobsFrom(pattern, name, r) <==> Globs(pattern, name[r..]) || GlobsFrom(pattern, name, r + 1)
  {
    hide Globs;
  }

  lemma {:induction false} SameChar(pattern: string, name: string, pi: nat, ni: nat, star: int, resume: nat)
    requires pi < |pattern| && ni < |name| && pattern[pi] != '*' && pattern[pi] == name[ni]
    requires Scanning(pattern, name, pi, ni, star, resume)
    ensures Scanning(pattern, name, pi + 1, ni + 1, star, resume)
  {
    assert pattern[pi..][1..] == pattern[pi + 1..] && name[ni..][1..] == name[ni + 1..];
    assert Globs(pattern[pi..], name[ni..]) <==> Globs(pattern[pi + 1..], name[ni + 1..]);
    if star >= 0 {
      assert pattern[star + 1..pi + 1] == pattern[star + 1..pi] + [pattern[pi]];
      assert name[resume..ni + 1] == name[resume..ni] + [name[ni]];
    }
  }

  lemma {:induction false} Stuck(pattern: string, name: string, pi: nat, ni: nat)
    requires pi <= |pattern| && ni < |name|
    requires pi < |pattern| ==> pattern[pi] != '*' && pattern[pi] != name[ni]
    ensures !Globs(pattern[pi..], name[ni..])
  {
  }

  lemma {:induction false} Backtrack(pattern: string, name: string, pi: nat, ni: nat, star: nat, resume: nat)
    requires pi <= |pattern| && ni < |name|
    requires pi < |pattern| ==> pattern[pi] != '*' && pattern[pi] != name[ni]
    requires Scanning(pattern, name, pi, ni, star, resume)
    ensures Scanning(pattern, name, star + 1, resume + 1, star, resume + 1)
  {
    hide Globs;
    Stuck(pattern, name, pi, ni);
    FromNext(pattern[star + 1..], name, resume + 1);
    assert pattern[star + 1..star + 1] == name[resume + 1..resume + 1];
  }

  // With the name consumed, swallowing more leaves too little of it.
  lemma {:induction false} Consumed(pattern: string, name: string, pi: nat, star: int, resume: nat)
    requires pi <= |pattern|
    requires Scanning(pattern, name, pi, |name|, star, resume)
    ensures Globs(pattern, name) <==> Globs(pattern[pi..], "")
  {
    hide Globs;
    if star >= 0 && GlobsFrom(pattern[star + 1..], name, resume + 1) {
      var k :| resume + 1 <= k <= |name| && Globs(pattern[star + 1..], name[k..]);
      assert pattern[star + 1..] == pattern[star + 1..pi] + pattern[pi..];
      assert |pattern[star + 1..pi]| == |name[resume..|name|]|;
      LiteralGlobs(pattern[star + 1..pi], pattern[pi..], name[k..]);
    }
    assert name[|name|..] == "";
  }

  method Match(pattern: string, name: string) returns (matches: bool)
    ensures matches == Globs(pattern, name)
  {
    hide Globs;
    var pi, ni := 0, 0;
    var star, resume := -1, 0;
    assert pattern[0..] == pattern && name[0..] == name;
    while ni < |name|
      invariant 0 <= pi <= |pattern| && 0 <= ni <= |name|
      invariant Scanning(pattern, name, pi, ni, star, resume)
      decreases |pattern| - star, |name| - resume, |name| - ni, |pattern| - pi
    {
      if pi < |pattern| && pattern[pi] == '*' {
        NewStar(pattern, name, pi, ni, star, resume);
        star, resume := pi, ni;
        pi := pi + 1;
      } else if pi < |pattern| && pattern[pi] == name[ni] {
        SameChar(pattern, name, pi, ni, star, resume);
        pi := pi + 1;
        ni := ni + 1;
      } else if star >= 0 {
        Backtrack(pattern, name, pi, ni, star, resume);
        resume := resume + 1;
        pi, ni := star + 1, resume;
      } else {
        Stuck(pattern, name, pi, ni);
        return false;
      }
    }
    Consumed(pattern, name, pi, star, resume);
    StarsGlobEmpty(pattern[pi..]);
    ghost var rest := pi;
    while pi < |pattern| && pattern[pi] == '*'
      invariant rest <= pi <= |pattern|
      invariant forall k :: rest <= k < pi ==> pattern[k] == '*'
    {
      pi := pi + 1;
    }
    assert forall k :: 0 <= k < |pattern[rest..]| ==> pattern[rest..][k] == pattern[rest + k];
    return pi == |pattern|;
  }
}
