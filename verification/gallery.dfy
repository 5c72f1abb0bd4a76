/**
 * The gallery page (Gallery.tsx): the category filter and the lightbox,
 * whose index cycles through the filtered items.
 */
module Gallery {
  import opened Seqs

  datatype Item = Item(id: nat, title: string, category: string)

  const All := "All"

  function InCategory(c: string): Item -> bool
  {
    (item: Item) => item.category == c
  }

  /** `filteredItems`: everything for "All", otherwise the items of the chosen category, in order. */
  function Filtered(items: seq<Item>, filter: string): (r: seq<Item>)
    ensures filter == All ==> r == items
    ensures filter != All ==> forall item :: item in r <==> item in items && item.category == filter
    ensures IsSubseq(r, items)
  {
    if filter == All then
      SubseqRefl(items);
      items
    else Filter(InCategory(filter), items)
  }

  lemma {:induction false} SubseqRefl(s: seq<Item>)
    ensures IsSubseq(s, s)
    decreases |s|
  {
    if |s| > 0 {
      SubseqRefl(s[1..]);
    }
  }

  /** Every item is shown under its own category. */
  lemma ItemShownUnderItsCategory(items: seq<Item>, item: Item)
    requires item in items
    ensures item in Filtered(items, item.category)
  {
  }

  /** Filtering the shown items again by the same choice shows the same items. */
  lemma FilteredIdempotent(items: seq<Item>, filter: string)
    ensures Filtered(Filtered(items, filter), filter) == Filtered(items, filter)
  {
    if filter != All {
      var r := Filtered(items, filter);
      FilterAll(InCategory(filter), r);
    }
  }

  /** `lightboxImage`: no image, or the index of the open one. */
  datatype Lightbox = Closed | Open(index: nat)

  /** An open lightbox points at one of the `n` filtered items. */
  predicate Fits(lb: Lightbox, n: nat)
  {
    lb.Open? ==> lb.index < n
  }

  /** `nextImage`: one step forward, wrapping from the last item to the first. */
  function Next(lb: Lightbox, n: nat): (r: Lightbox)
    requires Fits(lb, n)
    ensures Fits(r, n) && r.Open? == lb.Open?
    ensures lb.Open? && lb.index + 1 < n ==> r.index == lb.index + 1
    ensures lb.Open? && lb.index + 1 == n ==> r.index == 0
  {
    match lb
    case Closed => Closed
    case Open(i) => Open((i + 1) % n)
  }

  /** `prevImage`: one step back, wrapping from the first item to the last. */
  function Prev(lb: Lightbox, n: nat): (r: Lightbox)
    requires Fits(lb, n)
    ensures Fits(r, n) && r.Open? == lb.Open?
    ensures lb.Open? && lb.index > 0 ==> r.index == lb.index - 1
    ensures lb.Open? && lb.index == 0 ==> r.index == n - 1
  {
    match lb
    case Closed => Closed
    case Open(i) => Open(if i == 0 then n - 1 else i - 1)
  }

  /** Back undoes forward. */
  lemma PrevNext(lb: Lightbox, n: nat)
    requires Fits(lb, n)
    ensures Prev(Next(lb, n), n) == lb
  {
  }

  /** Forward undoes back. */
  lemma NextPrev(lb: Lightbox, n: nat)
    requires Fits(lb, n)
    ensures Next(Prev(lb, n), n) == lb
  {
  }

  /** `k` steps forward. */
  function Forward(lb: Lightbox, n: nat, k: nat): (r: Lightbox)
    requires Fits(lb, n)
    ensures Fits(r, n)
    decreases k
  {
    if k == 0 then lb else Forward(Next(lb, n), n, k - 1)
  }

  /** `k` presses of the forward arrow move the index `k` places round the cycle. */
  lemma {:induction false} ForwardIsRotation(i: nat, n: nat, k: nat)
    requires i < n
    ensures Forward(Open(i), n, k) == Open((i + k) % n)
    decreases k
  {
    if k > 0 {
      var j := (i + 1) % n;
      ForwardIsRotation(j, n, k - 1);
      ModShift(i, n, k);
    }
  }

  lemma ModShift(i: nat, n: nat, k: nat)
    requires i < n && k > 0
    ensures ((i + 1) % n + (k - 1)) % n == (i + k) % n
  {
    if i + 1 == n {
      ModUnique(i + 1, n, 1, 0);
      var q, r := (k - 1) / n, (k - 1) % n;
      ModUnique(i + k, n, q + 1, r);
    } else {
      ModUnique(i + 1, n, 0, i + 1);
    }
  }

  /** The remainder is the unique `r` in `[0, n)` with `x == q * n + r`. */
  lemma ModUnique(x: int, n: int, q: int, r: int)
    requires n > 0 && 0 <= r < n && x == q * n + r
    ensures x % n == r
  {
    var p := x / n;
    var d := q - p;
    assert d * n == q * n - p * n;
    if d >= 1 {
      MulAtLeast(d, n);
    } else if d <= -1 {
      MulAtLeast(-d, n);
    }
    assert d == 0;
  }

  lemma {:induction false} MulAtLeast(d: int, n: int)
    requires d >= 1 && n > 0
    ensures d * n >= n
    decreases d
  {
    if d > 1 {
      MulAtLeast(d - 1, n);
      assert d * n == (d - 1) * n + n;
    }
  }

  /** Going forward through all `n` items comes back to the same one. */
  lemma FullTurn(i: nat, n: nat)
    requires i < n
    ensures Forward(Open(i), n, n) == Open(i)
  {
    ForwardIsRotation(i, n, n);
    ModUnique(i + n, n, 1, i);
  }

  /** With a single item both arrows stay put (the page hides them then). */
  lemma SingleItemStays(lb: Lightbox)
    requires Fits(lb, 1)
    ensures Next(lb, 1) == lb && Prev(lb, 1) == lb
  {
  }
}
