/** Lists in which every element contributes some items or breaks the whole: what they
    contribute in total, and how the total splits among the sources of the elements. */
module Gains {
  import opened Sequences

  function Join<I>(a: Option<seq<I>>, b: Option<seq<I>>): Option<seq<I>> {
    if a.Some? && b.Some? then Some(a.value + b.value) else None
  }

  /** All contributions in order; None when some element breaks. */
  function Total<E, I>(gain: E -> Option<seq<I>>, entries: seq<E>): Option<seq<I>> {
    if entries == [] then Some([])
    else Join(Total(gain, entries[..|entries| - 1]), gain(entries[|entries| - 1]))
  }

  lemma {:induction false} JoinNothing<I>(a: Option<seq<I>>)
    ensures Join(a, Some([])) == a && Join(Some([]), a) == a
  {
    if a.Some? { assert a.value + [] == a.value && [] + a.value == a.value; }
  }

  lemma {:induction false} JoinAssociative<I>(a: Option<seq<I>>, b: Option<seq<I>>, c: Option<seq<I>>)
    ensures Join(Join(a, b), c) == Join(a, Join(b, c))
  {
    if a.Some? && b.Some? && c.Some? {
      ConcatAssociative(a.value, b.value, c.value);
    }
  }

  lemma {:induction false} TotalSnoc<E, I>(gain: E -> Option<seq<I>>, entries: seq<E>, e: E)
    ensures Total(gain, entries + [e]) == Join(Total(gain, entries), gain(e))
  {
    assert (entries + [e])[..|entries|] == entries;
  }

  lemma {:induction false} TotalConcat<E, I>(gain: E -> Option<seq<I>>, a: seq<E>, b: seq<E>)
    ensures Total(gain, a + b) == Join(Total(gain, a), Total(gain, b))
  {
    if b == [] {
      assert a + b == a;
      JoinNothing(Total(gain, a));
    } else {
      var k := |b| - 1;
      TotalConcat(gain, a, b[..k]);
      TotalSnoc(gain, a + b[..k], b[k]);
      assert a + b == (a + b[..k]) + [b[k]];
      JoinAssociative(Total(gain, a), Total(gain, b[..k]), gain(b[k]));
    }
  }

  /** Element by element equal contributions have equal totals. */
  lemma {:induction false} TotalAlike<E, F, I>(g: E -> Option<seq<I>>, a: seq<E>, h: F -> Option<seq<I>>, b: seq<F>)
    requires |a| == |b| && forall i :: 0 <= i < |a| ==> g(a[i]) == h(b[i])
    ensures Total(g, a) == Total(h, b)
  {
    if a != [] {
      TotalAlike(g, a[..|a| - 1], h, b[..|b| - 1]);
    }
  }

  lemma {:induction false} TotalUnlessBroken<E, I>(gain: E -> Option<seq<I>>, entries: seq<E>)
    ensures Total(gain, entries).Some? <==> forall i :: 0 <= i < |entries| ==> gain(entries[i]).Some?
  {
    if entries != [] {
      TotalUnlessBroken(gain, entries[..|entries| - 1]);
    }
  }

  // ---------- Sources ----------

  /** The elements of one source, in order. */
  function From<E, S(==)>(source: E -> S, entries: seq<E>, s: S): seq<E> {
    if entries == [] then []
    else
      var last := entries[|entries| - 1];
      From(source, entries[..|entries| - 1], s) + if source(last) == s then [last] else []
  }

  lemma {:induction false} FromIsPart<E, S>(source: E -> S, entries: seq<E>, s: S, e: E)
    requires e in From(source, entries, s)
    ensures source(e) == s && e in entries
  {
    var k := |entries| - 1;
    InConcat(From(source, entries[..k], s), if source(entries[k]) == s then [entries[k]] else [], e);
    if e in From(source, entries[..k], s) {
      FromIsPart(source, entries[..k], s, e);
    }
  }

  lemma {:induction false} FromSnoc<E, S>(source: E -> S, entries: seq<E>, e: E, s: S)
    ensures From(source, entries + [e], s) == From(source, entries, s) + if source(e) == s then [e] else []
  {
    assert (entries + [e])[..|entries|] == entries;
  }

  lemma {:induction false} FromKeepsItsOwn<E, S>(source: E -> S, entries: seq<E>, i: nat)
    requires i < |entries|
    ensures entries[i] in From(source, entries, source(entries[i]))
  {
    var k := |entries| - 1;
    if i < k {
      FromKeepsItsOwn(source, entries[..k], i);
    }
  }

  lemma {:induction false} FromNothing<E, S>(source: E -> S, s: S)
    ensures From(source, [], s) == []
  {
  }

  lemma {:induction false} FromConcat<E, S>(source: E -> S, a: seq<E>, b: seq<E>, s: S)
    ensures From(source, a + b, s) == From(source, a, s) + From(source, b, s)
  {
    hide From;
    if b == [] {
      assert a + b == a;
      FromNothing(source, s);
    } else {
      var k := |b| - 1;
      FromConcat(source, a, b[..k], s);
      FromSnoc(source, a + b[..k], b[k], s);
      FromSnoc(source, b[..k], b[k], s);
      assert b[..k] + [b[k]] == b;
      assert a + b == (a + b[..k]) + [b[k]];
    }
  }

  lemma {:induction false} FromAll<E, S>(source: E -> S, entries: seq<E>, s: S)
    requires forall i :: 0 <= i < |entries| ==> source(entries[i]) == s
    ensures From(source, entries, s) == entries
  {
    hide From;
    if entries == [] {
      FromNothing(source, s);
    } else {
      var k := |entries| - 1;
      FromAll(source, entries[..k], s);
      FromSnoc(source, entries[..k], entries[k], s);
      assert entries[..k] + [entries[k]] == entries;
    }
  }

  lemma {:induction false} FromNone<E, S>(source: E -> S, entries: seq<E>, s: S)
    requires forall i :: 0 <= i < |entries| ==> source(entries[i]) != s
    ensures From(source, entries, s) == []
  {
    hide From;
    if entries == [] {
      FromNothing(source, s);
    } else {
      var k := |entries| - 1;
      FromNone(source, entries[..k], s);
      FromSnoc(source, entries[..k], entries[k], s);
      assert entries[..k] + [entries[k]] == entries;
    }
  }

  ghost predicate SourceHolds<E, I, S>(gain: E -> Option<seq<I>>, source: E -> S, entries: seq<E>, s: S) {
    Total(gain, From(source, entries, s)).Some?
  }

  /** The total breaks exactly when some source's own total does. */
  lemma {:induction false} TotalIffEverySource<E, I, S(!new)>(
      gain: E -> Option<seq<I>>, source: E -> S, entries: seq<E>)
    ensures Total(gain, entries).Some? <==> forall s :: SourceHolds(gain, source, entries, s)
  {
    TotalUnlessBroken(gain, entries);
    if Total(gain, entries).Some? {
      forall s ensures SourceHolds(gain, source, entries, s) {
        TotalUnlessBroken(gain, From(source, entries, s));
        forall i | 0 <= i < |From(source, entries, s)| ensures gain(From(source, entries, s)[i]).Some? {
          FromIsPart(source, entries, s, From(source, entries, s)[i]);
        }
      }
    } else {
      var i :| 0 <= i < |entries| && gain(entries[i]).None?;
      FromKeepsItsOwn(source, entries, i);
      TotalUnlessBroken(gain, From(source, entries, source(entries[i])));
      assert !SourceHolds(gain, source, entries, source(entries[i]));
    }
  }

  // ---------- The total, source by source ----------

  /** As many times the source as the element contributes items. */
  function Credit<E, I, S>(gain: E -> Option<seq<I>>, source: E -> S, e: E): seq<S> {
    if gain(e).None? then [] else seq(|gain(e).value|, _ => source(e))
  }

  /** The source of every item of the total. */
  function Origins<E, I, S>(gain: E -> Option<seq<I>>, source: E -> S, entries: seq<E>): seq<S> {
    if entries == [] then []
    else Origins(gain, source, entries[..|entries| - 1]) + Credit(gain, source, entries[|entries| - 1])
  }

  /** The items whose origin is `s`. */
  function Select<I, S(==)>(items: seq<I>, origins: seq<S>, s: S): seq<I>
    requires |items| == |origins|
  {
    if items == [] then []
    else
      var k := |items| - 1;
      Select(items[..k], origins[..k], s) + if origins[k] == s then [items[k]] else []
  }

  lemma {:induction false} SelectConcat<I, S>(a: seq<I>, oa: seq<S>, b: seq<I>, ob: seq<S>, s: S)
    requires |a| == |oa| && |b| == |ob|
    ensures Select(a + b, oa + ob, s) == Select(a, oa, s) + Select(b, ob, s)
    decreases |b|
  {
    if b == [] {
      assert a + b == a && oa + ob == oa;
    } else {
      var k := |b| - 1;
      SelectConcat(a, oa, b[..k], ob[..k], s);
      assert (a + b)[..|a| + k] == a + b[..k] && (oa + ob)[..|a| + k] == oa + ob[..k];
      ConcatAssociative(Select(a, oa, s), Select(b[..k], ob[..k], s), if ob[k] == s then [b[k]] else []);
    }
  }

  lemma {:induction false} SelectSame<I, S>(items: seq<I>, origins: seq<S>, t: S, s: S)
    requires |items| == |origins| && forall i :: 0 <= i < |origins| ==> origins[i] == t
    ensures Select(items, origins, s) == if t == s then items else []
  {
    if items != [] {
      var k := |items| - 1;
      SelectSame(items[..k], origins[..k], t, s);
      assert items[..k] + [items[k]] == items;
    }
  }

  lemma {:induction false} SelectMore<I, S>(items: seq<I>, origins: seq<S>, more: seq<I>, credit: seq<S>, t: S, s: S)
    requires |items| == |origins| && |more| == |credit| && forall i :: 0 <= i < |credit| ==> credit[i] == t
    ensures Select(items + more, origins + credit, s)
            == if t == s then Select(items, origins, s) + more else Select(items, origins, s)
  {
    SelectConcat(items, origins, more, credit, s);
    SelectSame(more, credit, t, s);
    assert Select(items, origins, s) + [] == Select(items, origins, s);
  }

  /** `items` is the whole total and its restriction to `s` the total of that source. */
  ghost predicate SplitsAt<E, I, S>(gain: E -> Option<seq<I>>, source: E -> S, entries: seq<E>, s: S, items: seq<I>) {
    && Total(gain, entries) == Some(items)
    && |items| == |Origins(gain, source, entries)|
    && Total(gain, From(source, entries, s)) == Some(Select(items, Origins(gain, source, entries), s))
  }

  lemma {:induction false} SplitSnoc<E, I, S>(
      gain: E -> Option<seq<I>>, source: E -> S, entries: seq<E>, e: E, s: S, items: seq<I>)
    requires SplitsAt(gain, source, entries, s, items) && gain(e).Some?
    ensures SplitsAt(gain, source, entries + [e], s, items + gain(e).value)
  {
    assert (entries + [e])[..|entries|] == entries;
    SelectMore(items, Origins(gain, source, entries), gain(e).value, Credit(gain, source, e), source(e), s);
    if source(e) == s {
      TotalSnoc(gain, From(source, entries, s), e);
    } else {
      assert From(source, entries + [e], s) == From(source, entries, s);
    }
  }

  /** A source's own total is the whole one, restricted to the source. */
  lemma {:induction false} SourceTotal<E, I, S>(gain: E -> Option<seq<I>>, source: E -> S, entries: seq<E>, s: S)
    requires Total(gain, entries).Some?
    ensures SplitsAt(gain, source, entries, s, Total(gain, entries).value)
  {
    if entries != [] {
      var init, last := entries[..|entries| - 1], entries[|entries| - 1];
      SourceTotal(gain, source, init, s);
      SplitSnoc(gain, source, init, last, s, Total(gain, init).value);
      assert init + [last] == entries;
    }
  }
}
