/** The page allocator of src/slab.c: rt_page_init, rt_page_alloc and rt_page_free. Addresses are page
    numbers. */
module PageAlloc {
  import opened Sequences

  /** struct rt_page_head: a run of free pages. */
  datatype Span = Span(start: nat, pages: nat)

  // ---------------------------------------------------------------- operations

  /** rt_page_alloc: the first run that is large enough gives its first pages. */
  function Alloc(list: seq<Span>, n: nat): (Option<nat>, seq<Span>) {
    if n == 0 || list == [] then (None, list)
    else
      var b := list[0];
      if b.pages > n then (Some(b.start), [Span(b.start + n, b.pages - n)] + list[1..])
      else if b.pages == n then (Some(b.start), list[1..])
      else var r := Alloc(list[1..], n); (r.0, [b] + r.1)
  }

  /** rt_page_free. */
  function Free(list: seq<Span>, a: nat, n: nat): seq<Span> {
    if list == [] then [Span(a, n)]
    else
      var b := list[0];
      if b.start + b.pages == a then
        if |list| > 1 && b.start + (b.pages + n) == list[1].start then
          [Span(b.start, b.pages + n + list[1].pages)] + list[2..]
        else [Span(b.start, b.pages + n)] + list[1..]
      else if b.start == a + n then [Span(a, b.pages + n)] + list[1..]
      else if b.start > a + n then [Span(a, n)] + list
      else [b] + Free(list[1..], a, n)
  }

  // ---------------------------------------------------------------- invariant

  /** Page p is one of n pages from a on; and it is in the list. */
  /** The pages given are the first ones of the first run that is long enough. */
  lemma {:induction false} AllocFirstFit(list: seq<Span>, n: nat)
    ensures Alloc(list, n).0.Some? ==>
              exists i :: 0 <= i < |list| && Alloc(list, n).0 == Some(list[i].start) && list[i].pages >= n > 0
                          && forall j :: 0 <= j < i ==> list[j].pages < n
  {
    if n > 0 && list != [] && list[0].pages < n && Alloc(list, n).0.Some? {
      AllocFirstFit(list[1..], n);
      var i :| 0 <= i < |list[1..]| && Alloc(list[1..], n).0 == Some(list[1..][i].start) && list[1..][i].pages >= n
               && forall j :: 0 <= j < i ==> list[1..][j].pages < n;
      assert list[1..][i] == list[i + 1];
      assert forall j :: 0 < j <= i ==> list[j] == list[1..][j - 1];
    }
  }

  predicate Within(p: nat, a: nat, n: nat) {
    a <= p < a + n
  }

  predicate Has(list: seq<Span>, p: nat) {
    list != [] && (Within(p, list[0].start, list[0].pages) || Has(list[1..], p))
  }

  /** Sorted, disjoint, and between two runs there is always a page that is not free. */
  predicate Coalesced(list: seq<Span>, from: nat) {
    list == [] || (list[0].start >= from && list[0].pages > 0 && Coalesced(list[1..], list[0].start + list[0].pages + 1))
  }

  lemma {:induction false} PagesAbove(list: seq<Span>, from: nat, p: nat)
    requires Coalesced(list, from) && Has(list, p)
    ensures p >= from
  {
    if !Within(p, list[0].start, list[0].pages) { PagesAbove(list[1..], list[0].start + list[0].pages + 1, p); }
  }

  /** It says no only if there is no run of n pages. */
  lemma {:induction false} AllocRefuses(list: seq<Span>, n: nat)
    ensures Alloc(list, n).0.None? <==> n == 0 || forall i :: 0 <= i < |list| ==> list[i].pages < n
    ensures Alloc(list, n).0.None? ==> Alloc(list, n).1 == list
  {
    if n > 0 && list != [] {
      var rest := list[1..];
      AllocRefuses(rest, n);
      assert forall i :: 1 <= i < |list| ==> list[i] == rest[i - 1];
      if forall i :: 0 <= i < |rest| ==> rest[i].pages < n {
        assert list[0].pages < n ==> forall i :: 0 <= i < |list| ==> list[i].pages < n;
      } else {
        var i :| 0 <= i < |rest| && rest[i].pages >= n;
        assert list[i + 1].pages >= n;
      }
    }
  }

  /** What it gives are n pages that were free, and no others change. */
  lemma {:induction false} AllocTakes(list: seq<Span>, n: nat, from: nat, p: nat)
    requires Coalesced(list, from) && Alloc(list, n).0.Some?
    ensures var a, after := Alloc(list, n).0.value, Alloc(list, n).1;
            && a >= from && Coalesced(after, from)
            && (Within(p, a, n) ==> Has(list, p))
            && (Has(after, p) <==> Has(list, p) && !Within(p, a, n))
  {
    var b, rest := list[0], list[1..];
    var after := Alloc(list, n).1;
    if Has(rest, p) { PagesAbove(rest, b.start + b.pages + 1, p); }
    if b.pages > n {
      assert after[1..] == rest;
    } else if b.pages < n {
      AllocTakes(rest, n, b.start + b.pages + 1, p);
      assert after[1..] == Alloc(rest, n).1;
    }
  }

  /** None of n pages from a on is in the list. */
  ghost predicate Apart(list: seq<Span>, a: nat, n: nat) {
    forall p {:trigger Has(list, p)} :: Within(p, a, n) ==> !Has(list, p)
  }

  lemma ApartFirst(list: seq<Span>, a: nat, n: nat)
    requires list != [] && Apart(list, a, n) && n > 0 && list[0].pages > 0
    ensures Apart(list[1..], a, n)
    ensures list[0].start + list[0].pages <= a || a + n <= list[0].start
  {
    var b, rest := list[0], list[1..];
    assert Has(list, b.start) && !Has(list, a);
    forall p | Within(p, a, n)
      ensures !Has(rest, p)
    {
      assert Has(rest, p) ==> Has(list, p);
    }
  }

  /** It gives back n pages, no others change, and no two runs are left that touch. */
  lemma {:induction false} FreeGives(list: seq<Span>, a: nat, n: nat, from: nat, p: nat)
    requires Coalesced(list, from) && n > 0 && a >= from && Apart(list, a, n)
    ensures Coalesced(Free(list, a, n), from)
    ensures Has(Free(list, a, n), p) <==> Has(list, p) || Within(p, a, n)
  {
    var after := Free(list, a, n);
    if list != [] {
      var b, rest := list[0], list[1..];
      ApartFirst(list, a, n);
      hide Apart;
      if b.start + b.pages == a {
        if rest != [] { ApartFirst(rest, a, n); assert list[1] == rest[0] && list[2..] == rest[1..]; }
        if |list| > 1 && b.start + (b.pages + n) == list[1].start {
          assert after[1..] == rest[1..];
        } else {
          assert after[1..] == rest;
        }
      } else if b.start == a + n {
        assert after[1..] == rest;
      } else if b.start > a + n {
        assert after[1..] == list;
      } else {
        FreeGives(rest, a, n, b.start + b.pages + 1, p);
        assert after[1..] == Free(rest, a, n);
      }
    }
  }

  // ---------------------------------------------------------------- whole runs

  /** The free list, and what has been handed out and not given back: first page and number of pages. */
  datatype State = State(list: seq<Span>, taken: map<nat, nat>)

  datatype Step = DoAlloc(n: nat) | DoFree(a: nat)

  /** A caller gives back what it got, all of it. */
  predicate Enabled(s: State, step: Step) {
    step.DoFree? ==> step.a in s.taken
  }

  function Apply(s: State, step: Step): State
    requires Enabled(s, step)
  {
    match step
    case DoAlloc(n) =>
      var (r, list) := Alloc(s.list, n);
      if r.Some? then State(list, s.taken[r.value := n]) else s
    case DoFree(a) => State(Free(s.list, a, s.taken[a]), s.taken - {a})
  }

  predicate Run(s: State, steps: seq<Step>)
    decreases |steps|
  {
    steps == [] || (Enabled(s, steps[0]) && Run(Apply(s, steps[0]), steps[1..]))
  }

  function After(s: State, steps: seq<Step>): State
    requires Run(s, steps)
    decreases |steps|
  {
    if steps == [] then s else After(Apply(s, steps[0]), steps[1..])
  }

  predicate Taken(taken: map<nat, nat>, p: nat) {
    exists a {:trigger taken[a]} :: a in taken && Within(p, a, taken[a])
  }

  /** Each of the pages is free, or has been handed out once. */
  ghost predicate Inv(s: State, from: nat, total: nat) {
    && Coalesced(s.list, from)
    && (forall p :: Has(s.list, p) ==> Within(p, from, total))
    && (forall a <- s.taken :: s.taken[a] > 0 && from <= a && a + s.taken[a] <= from + total && Apart(s.list, a, s.taken[a]))
    && (forall a, b :: a in s.taken && b in s.taken && a < b ==> a + s.taken[a] <= b)
    && (forall p :: Within(p, from, total) && !Has(s.list, p) ==> Taken(s.taken, p))
  }

  /** n free pages are handed out. */
  lemma TakingKeepsInv(s: State, x: nat, n: nat, list: seq<Span>, from: nat, total: nat)
    requires Inv(s, from, total) && n > 0 && Coalesced(list, from)
    requires forall p {:trigger Has(s.list, p)} :: Within(p, x, n) ==> Has(s.list, p)
    requires forall p {:trigger Has(list, p)} :: Has(list, p) <==> Has(s.list, p) && !Within(p, x, n)
    ensures Inv(State(list, s.taken[x := n]), from, total)
  {
    hide Coalesced, Has;
    var t := State(list, s.taken[x := n]);
    assert Has(s.list, x) && Has(s.list, x + n - 1);
    forall a | a in s.taken
      ensures a + s.taken[a] <= x || x + n <= a
    {
      assert Within(a, a, s.taken[a]) && !Has(s.list, a) && !Within(x, a, s.taken[a]);
    }
    forall p | Within(p, from, total) && !Has(list, p)
      ensures Taken(t.taken, p)
    {
      if Within(p, x, n) { assert t.taken[x] == n; }
      else {
        var a :| a in s.taken && Within(p, a, s.taken[a]);
        assert t.taken[a] == s.taken[a];
      }
    }
  }

  lemma AllocKeepsInv(s: State, n: nat, from: nat, total: nat)
    requires Inv(s, from, total)
    ensures Inv(Apply(s, DoAlloc(n)), from, total)
  {
    hide Coalesced, Alloc, Has;
    AllocRefuses(s.list, n);
    if Alloc(s.list, n).0.Some? {
      var x, list := Alloc(s.list, n).0.value, Alloc(s.list, n).1;
      forall p
        ensures Within(p, x, n) ==> Has(s.list, p)
        ensures Has(list, p) <==> Has(s.list, p) && !Within(p, x, n)
      {
        AllocTakes(s.list, n, from, p);
      }
      AllocTakes(s.list, n, from, x);
      TakingKeepsInv(s, x, n, list, from, total);
    }
  }

  lemma FreeKeepsInv(s: State, a: nat, from: nat, total: nat)
    requires Inv(s, from, total) && a in s.taken
    ensures Inv(Apply(s, DoFree(a)), from, total)
  {
    hide Coalesced, Free, Has;
    var n := s.taken[a];
    var t := Apply(s, DoFree(a));
    forall p
      ensures Has(t.list, p) <==> Has(s.list, p) || Within(p, a, n)
    {
      FreeGives(s.list, a, n, from, p);
    }
    FreeGives(s.list, a, n, from, a);
    forall p | Within(p, from, total) && !Has(t.list, p)
      ensures Taken(t.taken, p)
    {
      var b :| b in s.taken && Within(p, b, s.taken[b]);
      assert t.taken[b] == s.taken[b];
    }
  }

  lemma StepKeepsInv(s: State, step: Step, from: nat, total: nat)
    requires Inv(s, from, total) && Enabled(s, step)
    ensures Inv(Apply(s, step), from, total)
  {
    hide Inv;
    match step
    case DoAlloc(n) => AllocKeepsInv(s, n, from, total);
    case DoFree(a) => FreeKeepsInv(s, a, from, total);
  }

  /** Over all runs the list stays sorted, disjoint and coalesced as far as it can be, and the free pages
      and those handed out are all there are. */
  lemma {:induction false} RunsKeepInv(s: State, steps: seq<Step>, from: nat, total: nat)
    requires Inv(s, from, total) && Run(s, steps)
    ensures Inv(After(s, steps), from, total)
    decreases |steps|
  {
    hide Inv;
    if steps != [] {
      StepKeepsInv(s, steps[0], from, total);
      RunsKeepInv(Apply(s, steps[0]), steps[1..], from, total);
    }
  }

  /** rt_page_init. */
  lemma InitHolds(from: nat, total: nat)
    requires total > 0
    ensures Inv(State(Free([], from, total), map[]), from, total)
  {
    assert [Span(from, total)][1..] == [];
    assert forall p :: Has([Span(from, total)], p) <==> Within(p, from, total);
  }

  /** When everything has been given back it is one run again. */
  lemma AllBackIsOneRun(s: State, from: nat, total: nat)
    requires Inv(s, from, total) && s.taken == map[] && total > 0
    ensures s.list == [Span(from, total)]
  {
    assert forall p :: Has(s.list, p) <==> Within(p, from, total);
    assert Has(s.list, from) && !Has(s.list, from + total);
    var b, rest := s.list[0], s.list[1..];
    if Has(rest, from) { PagesAbove(rest, b.start + b.pages + 1, from); }
    var e := b.start + b.pages;
    if Has(rest, e) { PagesAbove(rest, e + 1, e); }
    assert !Has(s.list, e) && Has(s.list, e - 1);
    assert Coalesced(rest, e + 1);
    if rest != [] {
      var c := rest[0];
      assert Within(c.start, c.start, c.pages);
      assert Has(rest, c.start);
      assert Has(s.list, c.start);
    }
  }

  // ---------------------------------------------------------------- the object

  lemma AllocIs(list: seq<Span>, n: nat)
    ensures n == 0 || list == [] ==> Alloc(list, n) == (None, list)
    ensures n > 0 && list != [] ==>
              var b, r := list[0], Alloc(list[1..], n);
              Alloc(list, n) == if b.pages > n then (Some(b.start), [Span(b.start + n, b.pages - n)] + list[1..])
                                else if b.pages == n then (Some(b.start), list[1..])
                                else (r.0, [b] + r.1)
  {
  }

  class PageAllocator {
    var list: seq<Span>

    constructor (from: nat, total: nat)
      ensures list == Free([], from, total)
    {
      list := [Span(from, total)];
    }

    method PageAlloc(n: nat) returns (r: Option<nat>)
      modifies this
      ensures (r, list) == Alloc(old(list), n)
    {
      hide Alloc;
      AllocIs(list, n);
      if n == 0 { return None; }
      var i := 0;
      ghost var rest := list;
      while i < |list| && list[i].pages < n
        invariant i <= |list| && list == old(list) && rest == list[i..]
        invariant Alloc(list, n).0 == Alloc(rest, n).0 && Alloc(list, n).1 == list[..i] + Alloc(rest, n).1
        decreases |list| - i
      {
        AllocIs(rest, n);
        assert list[..i] + ([list[i]] + Alloc(rest[1..], n).1) == list[..i + 1] + Alloc(rest[1..], n).1;
        rest := rest[1..];
        i := i + 1;
      }
      AllocIs(rest, n);
      assert list[..|list|] + [] == list;
      if i == |list| { return None; }
      var b := list[i];
      assert rest[0] == b && rest[1..] == list[i + 1..];
      r := Some(b.start);
      if b.pages > n {
        list := list[..i] + ([Span(b.start + n, b.pages - n)] + list[i + 1..]);
      } else {
        list := list[..i] + list[i + 1..];
      }
    }

    method PageFree(a: nat, n: nat)
      modifies this
      ensures list == Free(old(list), a, n)
    {
      hide Free;
      var i := 0;
      assert list[..0] + Free(list, a, n) == Free(list, a, n) && list[0..] == list;
      while i < |list| && list[i].start + list[i].pages != a && list[i].start < a + n
        invariant i <= |list| && list == old(list)
        invariant Free(list, a, n) == list[..i] + Free(list[i..], a, n)
        decreases |list| - i
      {
        FreeGoesOn(list, i, a, n);
        i := i + 1;
      }
      FreeHere(list, i, a, n);
      if i < |list| && list[i].start + list[i].pages == a {
        var b := list[i];
        if i + 1 < |list| && b.start + (b.pages + n) == list[i + 1].start {
          list := list[..i] + ([Span(b.start, b.pages + n + list[i + 1].pages)] + list[i + 2..]);
        } else {
          list := list[..i] + ([Span(b.start, b.pages + n)] + list[i + 1..]);
        }
      } else if i < |list| && list[i].start == a + n {
        list := list[..i] + ([Span(a, list[i].pages + n)] + list[i + 1..]);
      } else {
        list := list[..i] + ([Span(a, n)] + list[i..]);
      }
    }
  }

  lemma FreeGoesOn(list: seq<Span>, i: nat, a: nat, n: nat)
    requires i < |list| && list[i].start + list[i].pages != a && list[i].start < a + n
    ensures list[..i] + Free(list[i..], a, n) == list[..i + 1] + Free(list[i + 1..], a, n)
  {
    var rest := list[i..];
    assert rest[0] == list[i] && rest[1..] == list[i + 1..] && list[..i + 1] == list[..i] + [list[i]];
  }

  lemma FreeHere(list: seq<Span>, i: nat, a: nat, n: nat)
    requires i <= |list| && (i < |list| ==> list[i].start + list[i].pages == a || list[i].start >= a + n)
    ensures Free(list[i..], a, n) ==
            if i < |list| && list[i].start + list[i].pages == a then
              var b := list[i];
              if i + 1 < |list| && b.start + (b.pages + n) == list[i + 1].start then
                [Span(b.start, b.pages + n + list[i + 1].pages)] + list[i + 2..]
              else [Span(b.start, b.pages + n)] + list[i + 1..]
            else if i < |list| && list[i].start == a + n then [Span(a, list[i].pages + n)] + list[i + 1..]
            else [Span(a, n)] + list[i..]
  {
    var rest := list[i..];
    if i < |list| {
      assert rest[0] == list[i] && rest[1..] == list[i + 1..];
      if i + 1 < |list| { assert rest[1] == list[i + 1] && rest[2..] == list[i + 2..]; }
    }
  }
}
