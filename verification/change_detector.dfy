/**
 * The change detector shared by both monitors: which of the keys extracted now
 * were not in the previous snapshot. `findNewHeadlines` in the Deno monitor builds a
 * `Set` of the previous keys and filters the current list against it; the Node
 * monitor filters with `Array.includes`. For strings both are the same test.
 */
module ChangeDetector {

  /** `xs` can be obtained from `ys` by deleting elements: order is preserved. */
  ghost predicate IsSubsequence<T>(xs: seq<T>, ys: seq<T>)
    decreases |ys|
  {
    if xs == [] then true
    else if ys == [] then false
    else (xs[0] == ys[0] && IsSubsequence(xs[1..], ys[1..])) || IsSubsequence(xs, ys[1..])
  }

  /**
   * `findNewHeadlines(current, previous)`: the keys of `current` that are not in
   * `previous`, every occurrence kept, in the order the extractor produced them.
   */
  function FindNewHeadlines(current: seq<string>, previous: seq<string>): (found: seq<string>)
    ensures |found| <= |current|
  {
    if current == [] then []
    else if current[0] in previous then FindNewHeadlines(current[1..], previous)
    else [current[0]] + FindNewHeadlines(current[1..], previous)
  }

  /**
   * What the diff means: an order-preserving selection from `current` holding
   * exactly the keys absent from `previous`, each as often as it occurs in `current`.
   */
  lemma {:induction false} FindNewHeadlinesSelects(current: seq<string>, previous: seq<string>)
    ensures var found := FindNewHeadlines(current, previous);
      && IsSubsequence(found, current)
      && (forall h :: h in found <==> h in current && h !in previous)
      && SelectsAbsent(found, current, previous)
  {
    if current != [] {
      FindNewHeadlinesSelects(current[1..], previous);
      assert current == [current[0]] + current[1..];
    }
  }

  /** A subsequence never holds more copies of anything than the sequence it comes from. */
  lemma {:induction false} SubsequenceMultiset<T>(xs: seq<T>, ys: seq<T>)
    requires IsSubsequence(xs, ys)
    ensures multiset(xs) <= multiset(ys)
    decreases |ys|
  {
    if xs != [] {
      assert ys == [ys[0]] + ys[1..];
      if xs[0] == ys[0] && IsSubsequence(xs[1..], ys[1..]) {
        SubsequenceMultiset(xs[1..], ys[1..]);
        assert xs == [xs[0]] + xs[1..];
      } else {
        SubsequenceMultiset(xs, ys[1..]);
      }
    }
  }

  /** `found` keeps every occurrence of the keys absent from `previous` and none of the others. */
  ghost predicate SelectsAbsent(found: seq<string>, current: seq<string>, previous: seq<string>)
  {
    forall h :: multiset(found)[h] == if h in previous then 0 else multiset(current)[h]
  }

  /** A selection from `[a] + rest` that must drop `a` is a selection from `rest`. */
  lemma SelectionSkipsPresentHead(a: string, rest: seq<string>, previous: seq<string>, found: seq<string>)
    requires a in previous
    requires IsSubsequence(found, [a] + rest) && SelectsAbsent(found, [a] + rest, previous)
    ensures IsSubsequence(found, rest) && SelectsAbsent(found, rest, previous)
  {
    var current := [a] + rest;
    assert current[0] == a && current[1..] == rest;
    if found != [] {
      assert multiset(found)[found[0]] > 0;
    }
    forall h ensures multiset(found)[h] == if h in previous then 0 else multiset(rest)[h] {
      if h !in previous {
        assert multiset(current)[h] == multiset(rest)[h] + (if h == a then 1 else 0);
      }
    }
  }

  /** A selection from `[a] + rest` that must keep `a` starts with it. */
  lemma SelectionKeepsAbsentHead(a: string, rest: seq<string>, previous: seq<string>, found: seq<string>)
    requires a !in previous
    requires IsSubsequence(found, [a] + rest) && SelectsAbsent(found, [a] + rest, previous)
    ensures found != [] && found[0] == a
    ensures IsSubsequence(found[1..], rest) && SelectsAbsent(found[1..], rest, previous)
  {
    var current := [a] + rest;
    assert current[0] == a && current[1..] == rest;
    assert multiset(current) == multiset{a} + multiset(rest);
    assert multiset(found)[a] == multiset(rest)[a] + 1;
    if !(found != [] && found[0] == a && IsSubsequence(found[1..], rest)) {
      SubsequenceMultiset(found, rest);
      assert false;
    }
    var tail := found[1..];
    assert found == [a] + tail;
    forall h ensures multiset(tail)[h] == if h in previous then 0 else multiset(rest)[h] {
      assert multiset(found)[h] == multiset(tail)[h] + (if h == a then 1 else 0);
    }
  }

  /**
   * The diff is the ONLY order-preserving selection from `current` that keeps every
   * occurrence of a key absent from `previous` and drops every key present in it.
   */
  lemma {:induction false} FindNewHeadlinesIsUnique(current: seq<string>, previous: seq<string>, found: seq<string>)
    requires IsSubsequence(found, current) && SelectsAbsent(found, current, previous)
    ensures found == FindNewHeadlines(current, previous)
    decreases |current|
  {
    if current != [] {
      var a, rest := current[0], current[1..];
      assert current == [a] + rest;
      if a in previous {
        SelectionSkipsPresentHead(a, rest, previous, found);
        FindNewHeadlinesIsUnique(rest, previous, found);
      } else {
        SelectionKeepsAbsentHead(a, rest, previous, found);
        FindNewHeadlinesIsUnique(rest, previous, found[1..]);
        assert found == [a] + found[1..];
      }
    } else if found != [] {
      assert false;
    }
  }

  /** First run floods: against an empty snapshot every current key is new. */
  lemma {:induction false} FirstRunFloods(current: seq<string>)
    ensures FindNewHeadlines(current, []) == current
  {
    if current != [] {
      FirstRunFloods(current[1..]);
    }
  }

  /** Nothing is new against a snapshot that already holds every current key. */
  lemma {:induction false} NothingNewAgainstCoveringSnapshot(current: seq<string>, previous: seq<string>)
    requires forall h :: h in current ==> h in previous
    ensures FindNewHeadlines(current, previous) == []
  {
    if current != [] {
      NothingNewAgainstCoveringSnapshot(current[1..], previous);
    }
  }

  /** Idempotence: a list compared with itself has nothing new. */
  lemma Idempotent(current: seq<string>)
    ensures FindNewHeadlines(current, current) == []
  {
    NothingNewAgainstCoveringSnapshot(current, current);
  }

  /**
   * Only membership in the snapshot matters, not its order or multiplicity
   * (the snapshot is turned into a `Set` first).
   */
  lemma {:induction false} OnlyPresenceMatters(current: seq<string>, previous: seq<string>, other: seq<string>)
    requires forall h :: h in previous <==> h in other
    ensures FindNewHeadlines(current, previous) == FindNewHeadlines(current, other)
  {
    if current != [] {
      OnlyPresenceMatters(current[1..], previous, other);
    }
  }
}
