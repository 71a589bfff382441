/**
 * The application configuration of utils/config.py: rule, tag and
 * collection lists that the stream drivers edit, the restart counter and
 * the flag that asks for the stream rules to be re-sent.
 *
 * Python's `list.remove` deletes the first occurrence and raises ValueError
 * when there is none; a loop of removals therefore stops at the first missing
 * element with the earlier removals already done. `RemoveAll` captures that.
 */
module ConfigState {
  import opened Wrappers

  /** An entry of `collections`: set_add_rule appends its whole tag list,
      the NFT tools append a single collection name. */
  datatype Tracked = Group(tags: seq<string>) | Named(name: string)

  /** `n` copies of `x`: what a loop appending `x` once per element of an `n`-element list leaves behind. */
  function Copies<T>(x: T, n: nat): (r: seq<T>)
    ensures |r| == n
    ensures forall i :: 0 <= i < n ==> r[i] == x
  {
    if n == 0 then [] else Copies(x, n - 1) + [x]
  }

  lemma CopiesPrefix<T>(x: T, n: nat, m: nat)
    requires m <= n
    ensures Copies(x, n)[..m] == Copies(x, m)
  {
    assert forall i :: 0 <= i < m ==> Copies(x, n)[..m][i] == Copies(x, m)[i];
  }

  /** Where `list.remove(x)` looks: the first occurrence of `x`. */
  function IndexOf<T(==)>(xs: seq<T>, x: T): (r: nat)
    requires x in xs
    ensures r < |xs| && xs[r] == x && x !in xs[..r]
    ensures forall k :: 0 <= k < r ==> xs[k] != x
  {
    if xs[0] == x then 0
    else
      var i := IndexOf(xs[1..], x);
      assert xs[..i + 1] == [xs[0]] + xs[1..][..i];
      i + 1
  }

  /** `ys` is `xs` with its first `x` deleted and every other entry kept in order. */
  predicate DropsFirst<T(==)>(xs: seq<T>, x: T, ys: seq<T>)
  {
    exists i :: 0 <= i < |xs| && xs[i] == x && x !in xs[..i] && ys == xs[..i] + xs[i + 1..]
  }

  /** `list.remove(x)`: drop the first occurrence, or fail when there is none. */
  function RemoveFirst<T(==)>(xs: seq<T>, x: T): (r: Option<seq<T>>)
    ensures r.None? <==> x !in xs
    ensures r.Some? ==> DropsFirst(xs, x, r.value)
    ensures r.Some? ==> |r.value| == |xs| - 1
    ensures r.Some? ==> multiset(r.value) == multiset(xs) - multiset{x}
  {
    if x !in xs then None
    else
      var i := IndexOf(xs, x);
      assert xs == xs[..i] + [x] + xs[i + 1..];
      Some(xs[..i] + xs[i + 1..])
  }

  /** `ys` is what is left of `xs` after deleting some of its entries: the survivors keep their order. */
  predicate IsSubsequence<T(==)>(ys: seq<T>, xs: seq<T>)
    decreases |xs|
  {
    |ys| == 0 || (|xs| > 0 && ((ys[0] == xs[0] && IsSubsequence(ys[1..], xs[1..])) || IsSubsequence(ys, xs[1..])))
  }

  lemma {:induction false} SubsequenceOfItself<T>(xs: seq<T>)
    ensures IsSubsequence(xs, xs)
    decreases |xs|
  {
    if |xs| > 0 {
      SubsequenceOfItself(xs[1..]);
    }
  }

  lemma {:induction false} SubsequenceTransitive<T>(a: seq<T>, b: seq<T>, c: seq<T>)
    requires IsSubsequence(a, b) && IsSubsequence(b, c)
    ensures IsSubsequence(a, c)
    decreases |c|
  {
    if |a| > 0 {
      if b[0] == c[0] && IsSubsequence(b[1..], c[1..]) {
        if a[0] == b[0] && IsSubsequence(a[1..], b[1..]) {
          SubsequenceTransitive(a[1..], b[1..], c[1..]);
        } else {
          SubsequenceTransitive(a, b[1..], c[1..]);
        }
      } else {
        SubsequenceTransitive(a, b, c[1..]);
      }
    }
  }

  /** Deleting one entry keeps the order of the rest. */
  lemma {:induction false} DeletionKeepsOrder<T>(p: seq<T>, x: T, s: seq<T>)
    ensures IsSubsequence(p + s, p + [x] + s)
    decreases |p|
  {
    if |p| == 0 {
      SubsequenceOfItself(s);
      assert p + s == s && (p + [x] + s)[1..] == s;
    } else {
      DeletionKeepsOrder(p[1..], x, s);
      assert (p + s)[1..] == p[1..] + s;
      assert (p + [x] + s)[1..] == p[1..] + [x] + s;
    }
  }

  /** `list.remove` deletes one entry, so the rest keep their order. */
  lemma RemoveFirstKeepsOrder<T>(xs: seq<T>, x: T)
    requires x in xs
    ensures IsSubsequence(RemoveFirst(xs, x).value, xs)
  {
    var after := RemoveFirst(xs, x).value;
    var i :| 0 <= i < |xs| && xs[i] == x && x !in xs[..i] && after == xs[..i] + xs[i + 1..];
    DeletionKeepsOrder(xs[..i], x, xs[i + 1..]);
    assert xs[..i] + [x] + xs[i + 1..] == xs;
  }

  /** Every `remove` deletes one entry, so a run of them keeps the order of what is left. */
  lemma {:induction false} RemoveAllKeepsOrder<T>(xs: seq<T>, items: seq<T>)
    ensures IsSubsequence(RemoveAll(xs, items).0, xs)
    decreases |items|
  {
    if |items| == 0 {
      SubsequenceOfItself(xs);
    } else {
      var init, x := items[..|items| - 1], items[|items| - 1];
      RemoveAllKeepsOrder(xs, init);
      var before := RemoveAll(xs, init);
      assert RemoveAll(xs, items) == RemoveNext(before, |items| - 1, x);
      if before.1 >= |items| - 1 && x in before.0 {
        RemoveFirstKeepsOrder(before.0, x);
        SubsequenceTransitive(RemoveFirst(before.0, x).value, before.0, xs);
      }
    }
  }

  /**
   * A loop calling `remove` for each element of `items` in order: the list
   * as it stands when the loop ends, and how many removals succeeded (all
   * of them, or the ones before the element that raised).
   */
  function RemoveAll<T(==)>(xs: seq<T>, items: seq<T>): (r: (seq<T>, nat))
    ensures r.1 <= |items|
  {
    if |items| == 0 then (xs, 0)
    else RemoveNext(RemoveAll(xs, items[..|items| - 1]), |items| - 1, items[|items| - 1])
  }

  /** One more removal after a run on `items`: what the run on `items + [x]` gives. */
  function RemoveNext<T(==)>(before: (seq<T>, nat), expected: nat, x: T): (r: (seq<T>, nat))
    ensures r.1 <= before.1 + 1
  {
    if before.1 < expected then before
    else match RemoveFirst(before.0, x)
      case None => before
      case Some(next) => (next, before.1 + 1)
  }

  /** Every removal succeeds exactly when the list holds each item at least as often as `items` does,
      and then the list loses exactly those items. */
  lemma {:induction false} RemoveAllSucceeds<T>(xs: seq<T>, items: seq<T>)
    ensures RemoveAll(xs, items).1 == |items| <==> multiset(items) <= multiset(xs)
    ensures RemoveAll(xs, items).1 == |items| ==> multiset(RemoveAll(xs, items).0) == multiset(xs) - multiset(items)
    decreases |items|
  {
    if |items| > 0 {
      var init, x := items[..|items| - 1], items[|items| - 1];
      assert items == init + [x];
      assert multiset(items) == multiset(init) + multiset{x};
      RemoveAllSucceeds(xs, init);
      var before := RemoveAll(xs, init);
      if before.1 == |init| {
        if x in before.0 {
          assert multiset(before.0)[x] > 0;
        } else {
          assert multiset(before.0)[x] == 0;
          assert multiset(items)[x] > multiset(xs)[x];
        }
      } else {
        assert multiset(init) <= multiset(items);
      }
    }
  }

  /** The run on a one-longer prefix is one more removal after the run on the prefix. */
  lemma RemoveAllStep<T>(xs: seq<T>, items: seq<T>, i: nat)
    requires i < |items|
    ensures RemoveAll(xs, items[..i + 1]) == RemoveNext(RemoveAll(xs, items[..i]), i, items[i])
  {
    assert items[..i + 1][..i] == items[..i];
  }

  /** Once a removal has raised, the later items are never tried. */
  lemma {:induction false} NoProgressAfterFailure<T>(xs: seq<T>, items: seq<T>, i: nat)
    requires i <= |items|
    requires RemoveAll(xs, items[..i]).1 < i
    ensures RemoveAll(xs, items) == RemoveAll(xs, items[..i])
    decreases |items|
  {
    if i == |items| {
      assert items[..i] == items;
    } else {
      var init := items[..|items| - 1];
      assert init[..i] == items[..i];
      NoProgressAfterFailure(xs, init, i);
      assert RemoveAll(xs, items) == RemoveNext(RemoveAll(xs, init), |items| - 1, items[|items| - 1]);
    }
  }

  /**
   * The removal loop: what remains of `xs`, and how many removals
   * succeeded before one raised (`|items|` when none did).
   */
  method RemoveEach<T(==)>(xs: seq<T>, items: seq<T>) returns (ys: seq<T>, done: nat)
    ensures done == |items| <==> multiset(items) <= multiset(xs)
    ensures done == |items| ==> multiset(ys) == multiset(xs) - multiset(items)
    ensures (ys, done) == RemoveAll(xs, items)
  {
    ys, done := xs, 0;
    var i := 0;
    while i < |items|
      invariant 0 <= i <= |items|
      invariant (ys, done) == RemoveAll(xs, items[..i])
      invariant done == i
    {
      RemoveAllStep(xs, items, i);
      var next := RemoveFirst(ys, items[i]);
      if next.None? {
        NoProgressAfterFailure(xs, items, i + 1);
        RemoveAllSucceeds(xs, items);
        return;
      }
      ys, done := next.value, done + 1;
      i := i + 1;
    }
    assert items[..|items|] == items;
    RemoveAllSucceeds(xs, items);
  }

  /**
   * What update_rules leaves in the live rule and tag lists, and whether
   * every removal it tried succeeded.
   */
  function Folded(rules: seq<string>, tags: seq<string>, addRule: seq<string>, addTag: seq<string>,
                  removeRule: seq<string>, removeTag: seq<string>): (r: (seq<string>, seq<string>, bool))
    ensures var added := if |addRule| > 0 then rules + addRule else rules;
            var addedTags := if |addRule| > 0 then tags + addTag else tags;
            && (|removeRule| == 0 ==> r == (added, addedTags, true))
            && (|removeRule| > 0 ==>
                  && (r.2 <==> multiset(removeRule) <= multiset(added) && multiset(removeTag) <= multiset(addedTags))
                  && (multiset(removeRule) <= multiset(added) ==> multiset(r.0) == multiset(added) - multiset(removeRule))
                  && (!(multiset(removeRule) <= multiset(added)) ==> r.1 == addedTags)
                  && (r.2 ==> multiset(r.1) == multiset(addedTags) - multiset(removeTag)))
    ensures var added := if |addRule| > 0 then rules + addRule else rules;
            var addedTags := if |addRule| > 0 then tags + addTag else tags;
            IsSubsequence(r.0, added) && IsSubsequence(r.1, addedTags)
  {
    var added := if |addRule| > 0 then rules + addRule else rules;
    var addedTags := if |addRule| > 0 then tags + addTag else tags;
    SubsequenceOfItself(added);
    SubsequenceOfItself(addedTags);
    if |removeRule| == 0 then (added, addedTags, true)
    else
      var (live, done) := RemoveAll(added, removeRule);
      RemoveAllSucceeds(added, removeRule);
      RemoveAllKeepsOrder(added, removeRule);
      if done == |removeRule| then
        var (liveTags, doneTags) := RemoveAll(addedTags, removeTag);
        RemoveAllSucceeds(addedTags, removeTag);
        RemoveAllKeepsOrder(addedTags, removeTag);
        (live, liveTags, doneTags == |removeTag|)
      else (live, addedTags, false)
  }

  /**
   * The Config record. The source declares the lists as dataclass fields
   * with `[]` defaults; here every instance starts with its own empty lists.
   */
  class Config {
    var addRule: seq<string>
    var addTag: seq<string>
    var removeRule: seq<string>
    var removeTag: seq<string>
    var collections: seq<Tracked>
    var rules: seq<string>
    var tags: seq<string>
    var recount: int
    var updateFlag: bool

    constructor()
      ensures addRule == [] && addTag == [] && removeRule == [] && removeTag == []
      ensures collections == [] && rules == [] && tags == []
      ensures recount == 0 && !updateFlag
    {
      addRule, addTag, removeRule, removeTag := [], [], [], [];
      collections, rules, tags := [], [], [];
      recount, updateFlag := 0, false;
    }

    /** Queue rules and tags for addition; the whole tag list joins `collections` once per tag. */
    method SetAddRule(rule: seq<string>, tag: seq<string>)
      modifies this`addRule, this`addTag, this`collections, this`updateFlag
      ensures addRule == old(addRule) + rule
      ensures addTag == old(addTag) + tag
      ensures collections == old(collections) + Copies(Group(tag), |tag|)
      ensures updateFlag
    {
      addRule := Appended(addRule, rule);
      var queued, tracked := addTag, collections;
      for i := 0 to |tag|
        invariant queued == old(addTag) + tag[..i]
        invariant tracked == old(collections) + Copies(Group(tag), i)
      {
        queued := queued + [tag[i]];
        tracked := tracked + [Group(tag)];
      }
      assert tag[..|tag|] == tag;
      addTag, collections := queued, tracked;
      updateFlag := true;
    }

    /**
     * Queue rules and tags for removal and take the tag list out of
     * `collections` once per tag. A missing entry raises: the tag that
     * failed has already been queued, and the flag is not set.
     */
    method SetRemoveRule(rule: seq<string>, tag: seq<string>) returns (ok: bool)
      modifies this`removeRule, this`removeTag, this`collections, this`updateFlag
      ensures removeRule == old(removeRule) + rule
      ensures ok <==> multiset(old(collections))[Group(tag)] >= |tag|
      ensures ok <==> RemoveCopies(old(collections), Group(tag), |tag|).1 == |tag|
      ensures collections == RemoveCopies(old(collections), Group(tag), |tag|).0
      ensures ok ==> removeTag == old(removeTag) + tag && updateFlag
      ensures ok ==> multiset(collections) == multiset(old(collections)) - multiset(Copies(Group(tag), |tag|))
      ensures !ok ==> removeTag == old(removeTag) + tag[..RemoveCopies(old(collections), Group(tag), |tag|).1 + 1]
      ensures !ok ==> updateFlag == old(updateFlag)
    {
      removeRule := Appended(removeRule, rule);
      Removable(collections, tag);
      var tracked, done := RemoveGroup(collections, tag);
      ok := done == |tag|;
      // each tag is queued before its removal runs, so a failing one is queued too
      removeTag, collections := removeTag + tag[..if ok then done else done + 1], tracked;
      if ok {
        updateFlag := true;
      }
    }

    /**
     * Fold the queued changes into the live lists: append every queued rule
     * and tag when there is a queued rule, then remove each queued removal.
     * The queues are not cleared. The rule removals run first; if one
     * raises, the tag removals never start and `ok` is false.
     */
    method UpdateRules() returns (ok: bool)
      modifies this`rules, this`tags
      ensures (rules, tags, ok) == Folded(old(rules), old(tags), addRule, addTag, removeRule, removeTag)
    {
      var live, liveTags := rules, tags;
      if |addRule| > 0 {
        live := Appended(live, addRule);
        liveTags := Appended(liveTags, addTag);
      }
      ok := true;
      if |removeRule| > 0 {
        var done;
        live, done := RemoveEach(live, removeRule);
        ok := done == |removeRule|;
        if ok {
          liveTags, done := RemoveEach(liveTags, removeTag);
          ok := done == |removeTag|;
        }
      }
      rules, tags := live, liveTags;
    }

    method SetUpdateFlag(flag: bool)
      modifies this`updateFlag
      ensures updateFlag == flag
    {
      updateFlag := flag;
    }

    /** One more stream restart. */
    method IncrementRecount()
      modifies this`recount
      ensures recount == old(recount) + 1
    {
      recount := recount + 1;
    }

    /** Track one more collection, unconditionally, and ask for a rule refresh. */
    method AddCollectionToTrack(collection: Tracked)
      modifies this`collections, this`updateFlag
      ensures collections == old(collections) + [collection]
      ensures updateFlag
    {
      collections := collections + [collection];
      updateFlag := true;
    }
  }

  /** A loop appending each element of `items` to `xs`, in order. */
  method Appended<T>(xs: seq<T>, items: seq<T>) returns (ys: seq<T>)
    ensures ys == xs + items
  {
    ys := xs;
    for i := 0 to |items|
      invariant ys == xs + items[..i]
    {
      ys := ys + [items[i]];
    }
    assert items[..|items|] == items;
  }

  /** `n` removals of the same entry `x`, as the set_remove_rule tag loop runs them. */
  function RemoveCopies<T(==)>(xs: seq<T>, x: T, n: nat): (r: (seq<T>, nat))
    ensures r.1 <= n
  {
    if n == 0 then (xs, 0) else RemoveNext(RemoveCopies(xs, x, n - 1), n - 1, x)
  }

  lemma {:induction false} RemoveCopiesIsRemoveAll<T>(xs: seq<T>, x: T, n: nat)
    ensures RemoveCopies(xs, x, n) == RemoveAll(xs, Copies(x, n))
  {
    if n > 0 {
      RemoveCopiesIsRemoveAll(xs, x, n - 1);
      assert Copies(x, n)[..n - 1] == Copies(x, n - 1);
    }
  }

  /** After a failed removal the remaining turns change nothing. */
  lemma {:induction false} RemoveCopiesStuck<T>(xs: seq<T>, x: T, n: nat, m: nat)
    requires m <= n
    requires RemoveCopies(xs, x, m).1 < m
    ensures RemoveCopies(xs, x, n) == RemoveCopies(xs, x, m)
  {
    if n > m {
      RemoveCopiesStuck(xs, x, n - 1, m);
    }
  }

  /**
   * The removals of the set_remove_rule tag loop: one copy of the tag list
   * per tag, stopping at the first removal that raises.
   */
  method RemoveGroup(collections: seq<Tracked>, tag: seq<string>)
    returns (tracked: seq<Tracked>, done: nat)
    ensures (tracked, done) == RemoveCopies(collections, Group(tag), |tag|)
  {
    tracked, done := collections, 0;
    while done < |tag|
      invariant done <= |tag|
      invariant (tracked, done) == RemoveCopies(collections, Group(tag), done)
    {
      var next := RemoveFirst(tracked, Group(tag));
      if next.None? {
        RemoveCopiesStuck(collections, Group(tag), |tag|, done + 1);
        return;
      }
      tracked, done := next.value, done + 1;
    }
  }

  /** The removals of set_remove_rule all succeed exactly when `collections` holds the tag list once per tag;
      they then take out exactly those entries. */
  lemma Removable(collections: seq<Tracked>, tag: seq<string>)
    ensures RemoveCopies(collections, Group(tag), |tag|).1 == |tag| <==> multiset(collections)[Group(tag)] >= |tag|
    ensures RemoveCopies(collections, Group(tag), |tag|).1 == |tag| ==>
      multiset(RemoveCopies(collections, Group(tag), |tag|).0) == multiset(collections) - multiset(Copies(Group(tag), |tag|))
  {
    CopiesCount(Group(tag), |tag|, collections);
    RemoveCopiesIsRemoveAll(collections, Group(tag), |tag|);
    RemoveAllSucceeds(collections, Copies(Group(tag), |tag|));
  }

  /** `n` copies of `x` fit into `xs` exactly when `xs` holds `x` at least `n` times. */
  lemma CopiesCount<T>(x: T, n: nat, xs: seq<T>)
    ensures multiset(Copies(x, n)) <= multiset(xs) <==> multiset(xs)[x] >= n
  {
    CopiesMultiset(x, n);
  }

  lemma {:induction false} CopiesMultiset<T>(x: T, n: nat)
    ensures multiset(Copies(x, n)) == multiset{}[x := n]
  {
    if n > 0 {
      CopiesMultiset(x, n - 1);
      assert Copies(x, n) == Copies(x, n - 1) + [x];
    }
  }

  /**
   * set_add_rule followed by set_remove_rule with the same tag list takes
   * out exactly the entries the first call put in: every removal succeeds
   * and the collections hold the same entries as before, as a multiset
   * (the first occurrences are removed, so order may differ).
   */
  lemma AddThenRemoveRestoresCollections(collections: seq<Tracked>, tag: seq<string>)
    ensures var r := RemoveCopies(collections + Copies(Group(tag), |tag|), Group(tag), |tag|);
            r.1 == |tag| && multiset(r.0) == multiset(collections)
  {
    var group := Copies(Group(tag), |tag|);
    Removable(collections + group, tag);
    assert multiset(collections + group) == multiset(collections) + multiset(group);
    CopiesMultiset(Group(tag), |tag|);
  }
}
