/**
 The `*` glob of service activation: split at the stars, anchor the first and last segment, scan for the middle
 segments leftmost first. Proved sound and complete for the declarative meaning of a glob.
 */
module Globs {

  import opened Strings

  // ---------- what a glob means ----------

  /** Each `*` stands for any run of characters, every other character for itself. */
  predicate Matches(pattern: string, name: string)
    decreases |pattern|
  {
    if pattern == "" then name == ""
    else if pattern[0] == '*' then exists k :: 0 <= k <= |name| && Matches(pattern[1..], name[k..])
    else name != "" && name[0] == pattern[0] && Matches(pattern[1..], name[1..])
  }

  // ---------- string operations of the source language ----------

  predicate At(s: string, part: string, k: nat) { k + |part| <= |s| && s[k..k + |part|] == part }

  predicate EndsWith(s: string, part: string) { |part| <= |s| && s[|s| - |part|..] == part }

  /** `s.indexOf(part, from)`: the leftmost occurrence at or after `from`. */
  method IndexOf(s: string, part: string, from: nat) returns (k: int)
    requires from <= |s|
    ensures k == -1 ==> forall j: nat :: j >= from ==> !At(s, part, j)
    ensures k != -1 ==> from <= k && At(s, part, k) && forall j: nat :: from <= j < k ==> !At(s, part, j)
  {
    k := from;
    while k + |part| <= |s|
      invariant from <= k
      invariant forall j: nat :: from <= j < k ==> !At(s, part, j)
    {
      if s[k..k + |part|] == part { return; }
      k := k + 1;
    }
    return -1;
  }

  // ---------- from the meaning to placements of segments ----------

  /** `parts[0]` somewhere from position `from` on, then the others in order with anything between, the last one
      at the end of `name`. */
  predicate Scattered(parts: seq<string>, name: string, from: nat)
    requires |parts| >= 1
    decreases |parts|
  {
    exists k: nat :: from <= k <= |name| && At(name, parts[0], k) &&
      if |parts| == 1 then k + |parts[0]| == |name| else Scattered(parts[1..], name, k + |parts[0]|)
  }

  /** `parts[0]` at position `at`, and the others scattered behind it. */
  predicate Placed(parts: seq<string>, name: string, at: nat)
    requires |parts| >= 1
  {
    At(name, parts[0], at) &&
    if |parts| == 1 then at + |parts[0]| == |name| else Scattered(parts[1..], name, at + |parts[0]|)
  }

  lemma ScatteredSomewhere(parts: seq<string>, name: string, from: nat) returns (k: nat)
    requires |parts| >= 1 && Scattered(parts, name, from)
    ensures from <= k <= |name| && Placed(parts, name, k)
  {
    k :| from <= k <= |name| && At(name, parts[0], k) &&
      if |parts| == 1 then k + |parts[0]| == |name| else Scattered(parts[1..], name, k + |parts[0]|);
  }

  lemma ScatteredHere(parts: seq<string>, name: string, from: nat, k: nat)
    requires |parts| >= 1 && from <= k && Placed(parts, name, k)
    ensures Scattered(parts, name, from)
  {
    assert At(name, parts[0], k);
  }

  lemma {:induction false} MeaningIsPlacement(pattern: string, name: string, at: nat)
    requires at <= |name|
    ensures Matches(pattern, name[at..]) <==> Placed(Split(pattern, '*'), name, at)
    decreases |pattern|
  {
    if pattern == "" {
    } else {
      if pattern[0] == '*' { StarIsScattered(pattern, name, at); } else { CharIsPlaced(pattern, name, at); }
    }
  }

  lemma {:induction false} StarIsScattered(pattern: string, name: string, at: nat)
    requires at <= |name| && pattern != "" && pattern[0] == '*'
    ensures Matches(pattern, name[at..]) <==> Placed(Split(pattern, '*'), name, at)
    decreases |pattern|, 0
  {
    var rest, tail := Split(pattern[1..], '*'), name[at..];
    assert Split(pattern, '*')[1..] == rest && name[at..at] == "";
    forall k: nat | at <= k <= |name| ensures Matches(pattern[1..], tail[k - at..]) <==> Placed(rest, name, k) {
      assert tail[k - at..] == name[k..];
      MeaningIsPlacement(pattern[1..], name, k);
    }
    if k :| 0 <= k <= |tail| && Matches(pattern[1..], tail[k..]) {
      assert tail[at + k - at..] == tail[k..];
      ScatteredHere(rest, name, at, at + k);
    }
    if Scattered(rest, name, at) {
      var k := ScatteredSomewhere(rest, name, at);
      assert Matches(pattern[1..], tail[k - at..]);
    }
  }

  lemma {:induction false} CharIsPlaced(pattern: string, name: string, at: nat)
    requires at <= |name| && pattern != "" && pattern[0] != '*'
    ensures Matches(pattern, name[at..]) <==> Placed(Split(pattern, '*'), name, at)
    decreases |pattern|, 0
  {
    var rest, parts := Split(pattern[1..], '*'), Split(pattern, '*');
    assert parts == [[pattern[0]] + rest[0]] + rest[1..] && parts[1..] == rest[1..];
    if at < |name| {
      MeaningIsPlacement(pattern[1..], name, at + 1);
      assert name[at..][1..] == name[at + 1..] && name[at..] == [name[at]] + name[at + 1..];
      if |parts| > 1 {
        AtCons(name, pattern[0], rest[0], at);
      } else {
        assert parts[0][1..] == rest[0];
      }
    }
  }

  lemma AtCons(s: string, c: char, part: string, at: nat)
    requires at < |s|
    ensures At(s, [c] + part, at) <==> s[at] == c && At(s, part, at + 1)
  {
    if at + 1 + |part| <= |s| { assert s[at..at + 1 + |part|] == [s[at]] + s[at + 1..at + 1 + |part|]; }
    if At(s, [c] + part, at) {
      assert s[at] == ([c] + part)[0] && s[at + 1..at + 1 + |part|] == ([c] + part)[1..];
    }
  }

  // ---------- the leftmost scan loses nothing ----------

  /** All segments but the last fit, in order, between `cursor` and `limit`. */
  ghost predicate Fits(parts: seq<string>, name: string, cursor: nat, limit: int)
    requires |parts| >= 1
    decreases |parts|
  {
    if |parts| == 1 then cursor <= limit
    else exists k: nat :: cursor <= k && At(name, parts[0], k) && k + |parts[0]| <= limit
                          && Fits(parts[1..], name, k + |parts[0]|, limit)
  }

  /** The first segment sits at `k`, and those behind it fit after it. */
  ghost predicate FitsAt(parts: seq<string>, name: string, k: nat, limit: int)
    requires |parts| >= 2
  {
    At(name, parts[0], k) && k + |parts[0]| <= limit && Fits(parts[1..], name, k + |parts[0]|, limit)
  }

  lemma FitsSomewhere(parts: seq<string>, name: string, cursor: nat, limit: int) returns (k: nat)
    requires |parts| >= 2 && Fits(parts, name, cursor, limit)
    ensures cursor <= k && FitsAt(parts, name, k, limit)
  {
    k :| cursor <= k && At(name, parts[0], k) && k + |parts[0]| <= limit
         && Fits(parts[1..], name, k + |parts[0]|, limit);
  }

  lemma FitsHere(parts: seq<string>, name: string, cursor: nat, k: nat, limit: int)
    requires |parts| >= 2 && cursor <= k && FitsAt(parts, name, k, limit)
    ensures Fits(parts, name, cursor, limit)
  {
    assert At(name, parts[0], k);
  }

  /** More room never hurts. */
  lemma FitsFromEarlier(parts: seq<string>, name: string, cursor: nat, earlier: nat, limit: int)
    requires |parts| >= 1 && earlier <= cursor && Fits(parts, name, cursor, limit)
    ensures Fits(parts, name, earlier, limit)
  {
    if |parts| > 1 {
      var k := FitsSomewhere(parts, name, cursor, limit);
      FitsHere(parts, name, earlier, k, limit);
    }
  }

  /** So the leftmost occurrence of a segment is as good as any. */
  lemma LeftmostIsEnough(parts: seq<string>, name: string, cursor: nat, limit: int, found: int)
    requires |parts| >= 2 && cursor <= |name|
    requires found == -1 ==> forall j: nat :: j >= cursor ==> !At(name, parts[0], j)
    requires found != -1 ==>
      cursor <= found && At(name, parts[0], found) && forall j: nat :: cursor <= j < found ==> !At(name, parts[0], j)
    ensures Fits(parts, name, cursor, limit) <==>
      found != -1 && found + |parts[0]| <= limit && Fits(parts[1..], name, found + |parts[0]|, limit)
  {
    if Fits(parts, name, cursor, limit) {
      var k := FitsSomewhere(parts, name, cursor, limit);
      FitsFromEarlier(parts[1..], name, k + |parts[0]|, found + |parts[0]|, limit);
    }
    if found != -1 && found + |parts[0]| <= limit && Fits(parts[1..], name, found + |parts[0]|, limit) {
      FitsHere(parts, name, cursor, found, limit);
    }
  }

  lemma {:induction false} FitsWithin(parts: seq<string>, name: string, cursor: nat, limit: int)
    requires |parts| >= 1 && Fits(parts, name, cursor, limit)
    ensures cursor <= limit
  {
    if |parts| > 1 {
      var k := FitsSomewhere(parts, name, cursor, limit);
      FitsWithin(parts[1..], name, k + |parts[0]|, limit);
    }
  }

  /** Scattered segments are segments that fit in front of the last one, which is anchored at the end. */
  lemma {:induction false} ScatteredIsFits(parts: seq<string>, name: string, cursor: nat)
    requires |parts| >= 1 && cursor <= |name|
    ensures var last := parts[|parts| - 1];
      Scattered(parts, name, cursor) <==> EndsWith(name, last) && Fits(parts, name, cursor, |name| - |last|)
    decreases |parts|
  {
    var last := parts[|parts| - 1];
    var limit := |name| - |last|;
    if |parts| == 1 {
      if EndsWith(name, last) && cursor <= limit { ScatteredHere(parts, name, cursor, limit); }
      if Scattered(parts, name, cursor) { var k := ScatteredSomewhere(parts, name, cursor); }
    } else {
      forall k: nat | k <= |name|
        ensures Placed(parts, name, k) <==> EndsWith(name, last) && FitsAt(parts, name, k, limit)
      {
        assert parts[1..][|parts| - 2] == last;
        if At(name, parts[0], k) {
          ScatteredIsFits(parts[1..], name, k + |parts[0]|);
          if Fits(parts[1..], name, k + |parts[0]|, limit) { FitsWithin(parts[1..], name, k + |parts[0]|, limit); }
        }
      }
      if Scattered(parts, name, cursor) {
        var k := ScatteredSomewhere(parts, name, cursor);
        FitsHere(parts, name, cursor, k, limit);
      }
      if EndsWith(name, last) && Fits(parts, name, cursor, limit) {
        var k := FitsSomewhere(parts, name, cursor, limit);
        ScatteredHere(parts, name, cursor, k);
      }
    }
  }

  // ---------- the code ----------

  /** The greedy scan decides exactly the declarative relation, for every pattern and name. */
  method GlobMatch(pattern: string, name: string) returns (matched: bool)
    ensures matched <==> Matches(pattern, name)
  {
    hide Matches, Scattered, Fits;
    var parts := Split(pattern, '*');
    assert name[0..] == name;
    MeaningIsPlacement(pattern, name, 0);
    if |parts| == 1 {
      SplitOfOne(pattern);
      return pattern == name;
    }
    var first, last := parts[0], parts[|parts| - 1];
    assert At(name, first, 0) <==> first <= name;
    if !(first <= name) { return false; }
    ScatteredIsFits(parts[1..], name, |first|);
    if !EndsWith(name, last) { return false; }
    var cursor: nat := |first|;
    var limit := |name| - |last|;
    var i := 1;
    while i < |parts| - 1
      invariant 1 <= i < |parts| && cursor <= |name|
      invariant Fits(parts[1..], name, |first|, limit) <==> Fits(parts[i..], name, cursor, limit)
    {
      var found := IndexOf(name, parts[i], cursor);
      assert parts[i..][1..] == parts[i + 1..];
      LeftmostIsEnough(parts[i..], name, cursor, limit, found);
      if found == -1 || found + |parts[i]| > limit { return false; }
      cursor := found + |parts[i]|;
      i := i + 1;
    }
    NoneLeft(parts[i..], name, cursor, limit);
    return cursor <= limit;
  }

  lemma NoneLeft(parts: seq<string>, name: string, cursor: nat, limit: int)
    requires |parts| == 1
    ensures Fits(parts, name, cursor, limit) <==> cursor <= limit
  {}

  lemma {:induction false} SplitOfOne(s: string)
    ensures |Split(s, '*')| == 1 ==> Split(s, '*')[0] == s
  {
    if s == "" {} else { SplitOfOne(s[1..]); }
  }

  /** The names that match, in their order. */
  function Matching(pattern: string, names: seq<string>): seq<string>
  {
    if names == [] then [] else
    var front, last := names[..|names| - 1], names[|names| - 1];
    Matching(pattern, front) + if Matches(pattern, last) then [last] else []
  }

  method MatchServicesPattern(pattern: string, names: seq<string>) returns (matching: seq<string>)
    ensures matching == Matching(pattern, names)
  {
    matching := [];
    for k := 0 to |names|
      invariant matching == Matching(pattern, names[..k])
    {
      var matched := GlobMatch(pattern, names[k]);
      assert names[..k + 1][..k] == names[..k];
      if matched { matching := matching + [names[k]]; }
    }
    assert names[..|names|] == names;
  }
}
