/** Which files of a level are compacted next: the overlap score, the smallest-first filling
    and the key window of the per-level loop in `libs/storage/compactor.ts`. */
module Selection {
  import opened Bytes
  import opened Entries
  import opened Compaction

  // ---------------------------------------------------------------- sorting

  /** The stable sort by an order, as `Array.prototype.sort` does it. */
  function InsertBy(le: (Meta, Meta) -> bool, x: Meta, s: seq<Meta>): (r: seq<Meta>)
    ensures multiset(r) == multiset{x} + multiset(s)
  {
    if s == [] then [x]
    else if le(x, s[0]) then [x] + s
    else
      assert s == [s[0]] + s[1..];
      [s[0]] + InsertBy(le, x, s[1..])
  }

  function SortBy(le: (Meta, Meta) -> bool, s: seq<Meta>): (r: seq<Meta>)
    ensures multiset(r) == multiset(s)
  {
    if s == [] then []
    else
      assert s == [s[0]] + s[1..];
      InsertBy(le, s[0], SortBy(le, s[1..]))
  }

  ghost predicate SortedBy(le: (Meta, Meta) -> bool, s: seq<Meta>)
  {
    forall i, j :: 0 <= i < j < |s| ==> le(s[i], s[j])
  }

  ghost predicate TotalOrder(le: (Meta, Meta) -> bool)
  {
    && (forall a, b :: le(a, b) || le(b, a))
    && (forall a, b, c :: le(a, b) && le(b, c) ==> le(a, c))
  }

  lemma {:induction false} InsertIsSorted(le: (Meta, Meta) -> bool, x: Meta, s: seq<Meta>)
    requires TotalOrder(le) && SortedBy(le, s)
    ensures SortedBy(le, InsertBy(le, x, s))
  {
    if s != [] && !le(x, s[0]) {
      var r := InsertBy(le, x, s[1..]);
      InsertIsSorted(le, x, s[1..]);
      forall j | 0 <= j < |r|
        ensures le(s[0], r[j])
      {
        assert r[j] in multiset(r);
        assert r[j] == x || r[j] in s[1..];
      }
    }
  }

  lemma {:induction false} SortIsSorted(le: (Meta, Meta) -> bool, s: seq<Meta>)
    requires TotalOrder(le)
    ensures SortedBy(le, SortBy(le, s))
  {
    if s != [] {
      SortIsSorted(le, s[1..]);
      InsertIsSorted(le, s[0], SortBy(le, s[1..]));
    }
  }

  lemma SortMembers(le: (Meta, Meta) -> bool, s: seq<Meta>)
    ensures |SortBy(le, s)| == |s|
    ensures forall m :: m in SortBy(le, s) <==> m in s
  {
    var r := SortBy(le, s);
    assert |r| == |multiset(r)| == |multiset(s)| == |s|;
    forall m
      ensures m in r <==> m in s
    {
      assert m in r <==> m in multiset(r);
      assert m in s <==> m in multiset(s);
    }
  }

  // ---------------------------------------------------------------- overlap

  /** `overlaps`: an unknown bound counts as an overlap. */
  predicate Overlaps(a: Meta, b: Meta)
  {
    if a.minKey == [] || a.maxKey == [] || b.minKey == [] || b.maxKey == [] then true
    else !Less(a.maxKey, b.minKey) && !Less(b.maxKey, a.minKey)
  }

  /** How many files of the next level a file overlaps. */
  function OverlapCount(f: Meta, next: seq<Meta>): nat
  {
    if next == [] then 0 else (if Overlaps(f, next[0]) then 1 else 0) + OverlapCount(f, next[1..])
  }

  function AtLeastOne(n: nat): nat
  {
    if n > 1 then n else 1
  }

  /** The order of the scores overlap / size, compared without rounding: a higher score comes
      first, then more overlap, then the smaller file. */
  predicate ScoreFirst(next: seq<Meta>, a: Meta, b: Meta)
  {
    var x, y := OverlapCount(a, next), OverlapCount(b, next);
    var p, q := x * AtLeastOne(b.size), y * AtLeastOne(a.size);
    p > q || (p == q && (x > y || (x == y && a.size <= b.size)))
  }

  predicate SizeFirst(a: Meta, b: Meta)
  {
    a.size <= b.size
  }

  /** By lowest key; files without one come first. */
  predicate KeyFirst(a: Meta, b: Meta)
  {
    a.minKey == [] || (b.minKey != [] && !Less(b.minKey, a.minKey))
  }

  // ---------------------------------------------------------------- the three stages

  function Total(files: seq<Meta>): nat
  {
    if files == [] then 0 else files[0].size + Total(files[1..])
  }

  /** Stage 1: by score, until enough, or full, or nothing overlaps any more. */
  function ByOverlap(scored: seq<Meta>, next: seq<Meta>, need: nat, max: nat, acc: seq<Meta>): seq<Meta>
    decreases |scored|
  {
    if scored == [] || |acc| >= max || OverlapCount(scored[0], next) == 0 then acc
    else if Total(acc + [scored[0]]) >= need then acc + [scored[0]]
    else ByOverlap(scored[1..], next, need, max, acc + [scored[0]])
  }

  /** Stage 2: the smallest of the others, until enough or full. */
  function BySize(sorted: seq<Meta>, need: nat, max: nat, skip: seq<nat>, acc: seq<Meta>): seq<Meta>
    decreases |sorted|
  {
    if sorted == [] || |acc| >= max then acc
    else if sorted[0].file in skip then BySize(sorted[1..], need, max, skip, acc)
    else if Total(acc + [sorted[0]]) >= need then acc + [sorted[0]]
    else BySize(sorted[1..], need, max, skip, acc + [sorted[0]])
  }

  /** Stage 3, inner loop: the end of the shortest window from `i` that is enough. */
  function WindowEnd(files: seq<Meta>, i: nat, j: nat, need: nat, max: nat): (r: Option<nat>)
    requires i <= j <= |files|
    ensures r.Some? ==> i < r.value <= |files| && r.value <= i + max && Total(files[i..r.value]) >= need
    decreases |files| - j
  {
    if j >= |files| || j >= i + max then None
    else if Total(files[i..j + 1]) >= need then Some(j + 1)
    else WindowEnd(files, i, j + 1, need, max)
  }

  /** Stage 3, outer loop: the first of the windows with the least total. */
  function BestWindow(files: seq<Meta>, i: nat, need: nat, max: nat, best: Option<seq<Meta>>): Option<seq<Meta>>
    requires i <= |files|
    decreases |files| - i
  {
    if i == |files| then best
    else
      var end := WindowEnd(files, i, i, need, max);
      if end.Some? && (best == None || Total(files[i..end.value]) < Total(best.value)) then
        BestWindow(files, i + 1, need, max, Some(files[i..end.value]))
      else BestWindow(files, i + 1, need, max, best)
  }

  function Stage1(level: seq<Meta>, next: seq<Meta>, need: nat, max: nat): seq<Meta>
  {
    ByOverlap(SortBy((a, b) => ScoreFirst(next, a, b), level), next, need, max, [])
  }

  function Stage2(level: seq<Meta>, next: seq<Meta>, need: nat, max: nat): seq<Meta>
  {
    var first := Stage1(level, next, need, max);
    if Total(first) >= need then first else BySize(SortBy(SizeFirst, level), need, max, Names(first), first)
  }

  /** The files the loop compacts next. */
  function Select(level: seq<Meta>, next: seq<Meta>, need: nat, max: nat): seq<Meta>
  {
    var second := Stage2(level, next, need, max);
    if Total(second) >= need then second
    else
      var window := BestWindow(SortBy(KeyFirst, level), 0, need, max, None);
      if window.Some? then window.value else second
  }

  // ---------------------------------------------------------------- the loops

  method SelectFiles(level: seq<Meta>, next: seq<Meta>, need: nat, max: nat) returns (selected: seq<Meta>)
    ensures selected == Select(level, next, need, max)
  {
    hide Total, ByOverlap, BySize, BestWindow;
    selected := PickByOverlap(SortBy((a, b) => ScoreFirst(next, a, b), level), next, need, max);
    if Total(selected) < need {
      selected := FillBySize(SortBy(SizeFirst, level), need, max, selected);
    }
    if Total(selected) < need {
      var window := FindWindow(SortBy(KeyFirst, level), need, max);
      if window.Some? {
        selected := window.value;
      }
    }
  }

  method PickByOverlap(scored: seq<Meta>, next: seq<Meta>, need: nat, max: nat) returns (selected: seq<Meta>)
    ensures selected == ByOverlap(scored, next, need, max, [])
  {
    hide Total, OverlapCount;
    selected := [];
    var selSum := 0;
    NoTotal();
    var i := 0;
    while i < |scored|
      invariant 0 <= i <= |scored| && selSum == Total(selected)
      invariant ByOverlap(scored[i..], next, need, max, selected) == ByOverlap(scored, next, need, max, [])
    {
      if |selected| >= max || OverlapCount(scored[i], next) <= 0 {
        return;
      }
      TotalSnoc(selected, scored[i]);
      selected := selected + [scored[i]];
      selSum := selSum + scored[i].size;
      if selSum >= need {
        return;
      }
      i := i + 1;
    }
  }

  method FillBySize(sorted: seq<Meta>, need: nat, max: nat, first: seq<Meta>) returns (selected: seq<Meta>)
    ensures selected == BySize(sorted, need, max, Names(first), first)
  {
    hide Total;
    selected := first;
    var already := Names(first);
    var ssum := Total(first);
    var i := 0;
    while i < |sorted|
      invariant 0 <= i <= |sorted| && ssum == Total(selected)
      invariant BySize(sorted[i..], need, max, already, selected) == BySize(sorted, need, max, already, first)
    {
      if |selected| >= max {
        return;
      }
      var f := sorted[i];
      i := i + 1;
      if f.file in already {
        continue;
      }
      TotalSnoc(selected, f);
      selected := selected + [f];
      ssum := ssum + f.size;
      if ssum >= need {
        return;
      }
    }
  }

  method FindWindow(files: seq<Meta>, need: nat, max: nat) returns (best: Option<seq<Meta>>)
    ensures best == BestWindow(files, 0, need, max, None)
  {
    hide Total, WindowEnd;
    best := None;
    var bestSum := 0;
    var i := 0;
    while i < |files|
      invariant 0 <= i <= |files|
      invariant best.Some? ==> bestSum == Total(best.value)
      invariant BestWindow(files, i, need, max, best) == BestWindow(files, 0, need, max, None)
    {
      var end := FindEnd(files, i, need, max);
      if end.Some? {
        var sum := Total(files[i..end.value]);
        if best == None || sum < bestSum {
          bestSum := sum;
          best := Some(files[i..end.value]);
        }
      }
      i := i + 1;
    }
  }

  method FindEnd(files: seq<Meta>, i: nat, need: nat, max: nat) returns (end: Option<nat>)
    requires i < |files|
    ensures end == WindowEnd(files, i, i, need, max)
  {
    hide Total;
    var sum := 0;
    var j := i;
    NoTotal();
    assert files[i..i] == [];
    while j < |files| && j < i + max
      invariant i <= j <= |files| && sum == Total(files[i..j])
      invariant WindowEnd(files, i, j, need, max) == WindowEnd(files, i, i, need, max)
    {
      TotalSnoc(files[i..j], files[j]);
      assert files[i..j] + [files[j]] == files[i..j + 1];
      sum := sum + files[j].size;
      if sum >= need {
        return Some(j + 1);
      }
      j := j + 1;
    }
    return None;
  }

  lemma NoTotal()
    ensures Total([]) == 0
  {
  }

  lemma {:induction false} TotalSnoc(files: seq<Meta>, f: Meta)
    ensures Total(files + [f]) == Total(files) + f.size
  {
    if files == [] {
      assert (files + [f])[1..] == [];
    } else {
      assert (files + [f])[1..] == files[1..] + [f];
      TotalSnoc(files[1..], f);
    }
  }

  lemma {:induction false} TotalConcat(a: seq<Meta>, b: seq<Meta>)
    ensures Total(a + b) == Total(a) + Total(b)
  {
    if a == [] {
      assert a + b == b;
    } else {
      assert (a + b)[1..] == a[1..] + b;
      TotalConcat(a[1..], b);
    }
  }

  // ---------------------------------------------------------------- what the stages pick

  /** Stage 1 takes a front part of the scored list. */
  lemma {:induction false} ByOverlapIsPrefix(scored: seq<Meta>, next: seq<Meta>, need: nat, max: nat, acc: seq<Meta>)
      returns (n: nat)
    ensures n <= |scored| && ByOverlap(scored, next, need, max, acc) == acc + scored[..n]
    ensures |acc| <= max ==> |acc| + n <= max
    ensures n > 0 ==> OverlapCount(scored[n - 1], next) > 0
    ensures n < |scored| && |acc| + n < max && OverlapCount(scored[n], next) > 0 ==>
              Total(acc + scored[..n]) >= need
    decreases |scored|
  {
    hide Total, OverlapCount;
    if scored == [] || |acc| >= max || OverlapCount(scored[0], next) == 0 {
      n := 0;
      assert acc + scored[..0] == acc;
    } else if Total(acc + [scored[0]]) >= need {
      n := 1;
      assert acc + scored[..1] == acc + [scored[0]];
    } else {
      var k := ByOverlapIsPrefix(scored[1..], next, need, max, acc + [scored[0]]);
      n := k + 1;
      assert acc + [scored[0]] + scored[1..][..k] == acc + scored[..n];
    }
  }

  /** Stage 2 appends, in the order of sizes, a front part of the files not yet taken. */
  function NotIn(files: seq<Meta>, skip: seq<nat>): (r: seq<Meta>)
    ensures forall m :: m in r <==> m in files && m.file !in skip
  {
    if files == [] then []
    else (if files[0].file in skip then [] else [files[0]]) + NotIn(files[1..], skip)
  }

  lemma {:induction false} BySizeIsPrefix(sorted: seq<Meta>, need: nat, max: nat, skip: seq<nat>, acc: seq<Meta>)
      returns (n: nat)
    ensures n <= |NotIn(sorted, skip)|
    ensures BySize(sorted, need, max, skip, acc) == acc + NotIn(sorted, skip)[..n]
    ensures |acc| <= max ==> |acc| + n <= max
    ensures |acc| < max && NotIn(sorted, skip) != [] ==> n > 0
    ensures n < |NotIn(sorted, skip)| && |acc| + n < max ==> n > 0 && Total(acc + NotIn(sorted, skip)[..n]) >= need
    decreases |sorted|
  {
    hide Total, BySize, NotIn;
    var all := NotIn(sorted, skip);
    BySizeStep(sorted, need, max, skip, acc);
    if sorted == [] || |acc| >= max {
      n := 0;
      assert acc + all[..0] == acc;
    } else if sorted[0].file in skip {
      n := BySizeIsPrefix(sorted[1..], need, max, skip, acc);
    } else if Total(acc + [sorted[0]]) >= need {
      n := 1;
      assert all[..1] == [sorted[0]];
    } else {
      var k := BySizeIsPrefix(sorted[1..], need, max, skip, acc + [sorted[0]]);
      n := k + 1;
      assert all[..n] == [sorted[0]] + all[1..][..k];
      assert acc + [sorted[0]] + all[1..][..k] == acc + all[..n];
    }
  }

  lemma BySizeStep(sorted: seq<Meta>, need: nat, max: nat, skip: seq<nat>, acc: seq<Meta>)
    ensures sorted == [] ==> NotIn(sorted, skip) == []
    ensures sorted != [] && sorted[0].file in skip ==> NotIn(sorted, skip) == NotIn(sorted[1..], skip)
    ensures sorted != [] && sorted[0].file !in skip ==>
              NotIn(sorted, skip) != [] && NotIn(sorted, skip)[0] == sorted[0] &&
              NotIn(sorted, skip)[1..] == NotIn(sorted[1..], skip)
    ensures BySize(sorted, need, max, skip, acc) ==
            if sorted == [] || |acc| >= max then acc
            else if sorted[0].file in skip then BySize(sorted[1..], need, max, skip, acc)
            else if Total(acc + [sorted[0]]) >= need then acc + [sorted[0]]
            else BySize(sorted[1..], need, max, skip, acc + [sorted[0]])
  {
    hide Total;
  }

  // ---------------------------------------------------------------- the window

  ghost predicate IsWindow(files: seq<Meta>, w: seq<Meta>, need: nat, max: nat)
  {
    exists i, j :: WindowAt(files, w, i, j, need, max)
  }

  ghost predicate WindowAt(files: seq<Meta>, w: seq<Meta>, i: nat, j: nat, need: nat, max: nat)
  {
    i < j <= |files| && j <= i + max && w == files[i..j] && Total(w) >= need
  }

  /** The inner loop stops at the first window that is enough, which is the least from `i`. */
  lemma {:induction false} WindowEndIsLeast(files: seq<Meta>, i: nat, j: nat, need: nat, max: nat, end: nat)
    requires i <= j < end <= |files| && end <= i + max && Total(files[i..end]) >= need
    ensures WindowEnd(files, i, j, need, max).Some?
    ensures Total(files[i..WindowEnd(files, i, j, need, max).value]) <= Total(files[i..end])
    decreases |files| - j
  {
    hide Total;
    if Total(files[i..j + 1]) >= need {
      assert files[i..j + 1] + files[j + 1..end] == files[i..end];
      TotalConcat(files[i..j + 1], files[j + 1..end]);
    } else {
      assert j + 1 != end;
      WindowEndIsLeast(files, i, j + 1, need, max, end);
    }
  }

  lemma {:induction false} BestWindowIsLeast(files: seq<Meta>, k: nat, need: nat, max: nat, best: Option<seq<Meta>>)
    requires k <= |files| && (best.Some? ==> IsWindow(files, best.value, need, max))
    ensures var r := BestWindow(files, k, need, max, best);
            && (best.Some? ==> r.Some? && Total(r.value) <= Total(best.value))
            && (r.Some? ==> IsWindow(files, r.value, need, max))
            && forall w, i, j :: k <= i && WindowAt(files, w, i, j, need, max) ==>
                 r.Some? && Total(r.value) <= Total(w)
    decreases |files| - k
  {
    hide Total;
    if k < |files| {
      var end := WindowEnd(files, k, k, need, max);
      var better := end.Some? && (best == None || Total(files[k..end.value]) < Total(best.value));
      if end.Some? {
        assert WindowAt(files, files[k..end.value], k, end.value, need, max);
      }
      var next := if better then Some(files[k..end.value]) else best;
      BestWindowIsLeast(files, k + 1, need, max, next);
      var r := BestWindow(files, k, need, max, best);
      forall w, i, j | k <= i && WindowAt(files, w, i, j, need, max)
        ensures r.Some? && Total(r.value) <= Total(w)
      {
        if i == k {
          WindowEndIsLeast(files, k, k, need, max, j);
        }
      }
    }
  }

  // ---------------------------------------------------------------- main results

  lemma StageBounds(level: seq<Meta>, next: seq<Meta>, need: nat, max: nat)
    requires level != [] && need >= 1 && max >= 1
    ensures Stage2(level, next, need, max) != [] && |Stage2(level, next, need, max)| <= max
    ensures forall m :: m in Stage2(level, next, need, max) ==> m in level
  {
    hide Total, ByOverlap, BySize, SortBy;
    var le := (a: Meta, b: Meta) => ScoreFirst(next, a, b);
    var scored, sorted := SortBy(le, level), SortBy(SizeFirst, level);
    SortMembers(le, level);
    SortMembers(SizeFirst, level);
    var n := ByOverlapIsPrefix(scored, next, need, max, []);
    var first := Stage1(level, next, need, max);
    assert first == scored[..n];
    NoTotal();
    if Total(first) < need {
      var k := BySizeIsPrefix(sorted, need, max, Names(first), first);
      if first == [] {
        assert sorted[0] in NotIn(sorted, Names(first));
      }
    }
  }

  /** The selection is never empty, never larger than allowed, and stays within the level; if
      it falls short of the required reduction then no window of that many files, contiguous
      by key, reaches it. */
  lemma SelectionIsSound(level: seq<Meta>, next: seq<Meta>, need: nat, max: nat)
    requires level != [] && need >= 1 && max >= 1
    ensures var s := Select(level, next, need, max);
            && s != [] && |s| <= max
            && (forall m :: m in s ==> m in level)
            && (Total(s) < need ==> forall w :: !IsWindow(SortBy(KeyFirst, level), w, need, max))
  {
    hide Total, BestWindow, Stage2, SortBy;
    StageBounds(level, next, need, max);
    SortMembers(KeyFirst, level);
    var files := SortBy(KeyFirst, level);
    BestWindowIsLeast(files, 0, need, max, None);
    var window := BestWindow(files, 0, need, max, None);
    if window.Some? {
      var i, j :| WindowAt(files, window.value, i, j, need, max);
      assert forall m :: m in window.value ==> m in files;
    }
  }

  /** A window is taken only if the first two stages fall short, and then it has the least
      total of all windows that reach the reduction. */
  lemma WindowIsLeast(level: seq<Meta>, next: seq<Meta>, need: nat, max: nat, w: seq<Meta>)
    requires Total(Stage2(level, next, need, max)) < need
    requires IsWindow(SortBy(KeyFirst, level), w, need, max)
    ensures var s := Select(level, next, need, max);
            IsWindow(SortBy(KeyFirst, level), s, need, max) && Total(s) <= Total(w)
  {
    hide Total, BestWindow, Stage2, SortBy;
    BestWindowIsLeast(SortBy(KeyFirst, level), 0, need, max, None);
    var i, j :| WindowAt(SortBy(KeyFirst, level), w, i, j, need, max);
  }

  lemma SizeOrder()
    ensures TotalOrder(SizeFirst)
  {
  }

  lemma KeyOrder()
    ensures TotalOrder(KeyFirst)
  {
    forall a: Meta, b: Meta
      ensures KeyFirst(a, b) || KeyFirst(b, a)
    {
      if Less(b.minKey, a.minKey) {
        LessAsymmetric(b.minKey, a.minKey);
      }
    }
    forall a: Meta, b: Meta, c: Meta | KeyFirst(a, b) && KeyFirst(b, c)
      ensures KeyFirst(a, c)
    {
      if Less(c.minKey, a.minKey) {
        LessConnected(a.minKey, b.minKey);
        if Less(a.minKey, b.minKey) {
          LessTransitive(c.minKey, a.minKey, b.minKey);
        }
      }
    }
  }

  /** So a window is a run of neighbours in key order, and no file of the level is missing. */
  lemma WindowsFollowKeys(level: seq<Meta>)
    ensures SortedBy(KeyFirst, SortBy(KeyFirst, level)) && multiset(SortBy(KeyFirst, level)) == multiset(level)
  {
    KeyOrder();
    SortIsSorted(KeyFirst, level);
  }

  /** Products of positive factors compare like the fractions. */
  lemma ScoreChain(x: nat, y: nat, z: nat, a: nat, b: nat, c: nat)
    requires a >= 1 && b >= 1 && c >= 1 && x * b >= y * a && y * c >= z * b
    ensures x * c >= z * a
    ensures x * b > y * a || y * c > z * b ==> x * c > z * a
  {
    Scale(x * b, y * a, c);
    Scale(y * c, z * b, a);
    Swap(x, b, c);
    Swap(y, a, c);
    Swap(z, b, a);
    Cancel(x * c, z * a, b);
  }

  lemma Scale(p: nat, q: nat, n: nat)
    requires n >= 1 && p >= q
    ensures p * n >= q * n && (p > q ==> p * n > q * n)
  {
    var d := p - q;
    assert p * n == q * n + d * n;
    assert d >= 1 ==> d * n >= 1;
  }

  lemma Swap(p: nat, q: nat, n: nat)
    ensures (p * q) * n == (p * n) * q
  {
  }

  lemma Cancel(p: nat, q: nat, b: nat)
    requires b >= 1
    ensures p * b >= q * b ==> p >= q
    ensures p * b > q * b ==> p > q
  {
    if p < q {
      Scale(q, p, b);
    }
  }

  lemma ScoreOrder(next: seq<Meta>)
    ensures TotalOrder((a, b) => ScoreFirst(next, a, b))
  {
    hide OverlapCount;
    var le := (a: Meta, b: Meta) => ScoreFirst(next, a, b);
    forall a: Meta, b: Meta, c: Meta | le(a, b) && le(b, c)
      ensures le(a, c)
    {
      ScoreChain(OverlapCount(a, next), OverlapCount(b, next), OverlapCount(c, next),
                 AtLeastOne(a.size), AtLeastOne(b.size), AtLeastOne(c.size));
    }
  }

  lemma PrefixBeats(le: (Meta, Meta) -> bool, s: seq<Meta>, n: nat, p: Meta, u: Meta)
    requires SortedBy(le, s) && n <= |s| && p in s[..n] && u in s && u !in s[..n]
    ensures le(p, u)
  {
    var i :| 0 <= i < n && s[..n][i] == p;
    var j :| 0 <= j < |s| && s[j] == u;
    assert forall l :: 0 <= l < n ==> s[l] in s[..n];
  }

  /** Stage 1: no file that is left out has a better score than one that is picked. */
  lemma OverlapStagePrefersScore(level: seq<Meta>, next: seq<Meta>, need: nat, max: nat, p: Meta, u: Meta)
    requires p in Stage1(level, next, need, max) && u in level && u !in Stage1(level, next, need, max)
    ensures ScoreFirst(next, p, u)
  {
    hide Total, OverlapCount, ByOverlap, ScoreFirst;
    var le := (a: Meta, b: Meta) => ScoreFirst(next, a, b);
    ScoreOrder(next);
    SortIsSorted(le, level);
    SortMembers(le, level);
    var n := ByOverlapIsPrefix(SortBy(le, level), next, need, max, []);
    assert [] + SortBy(le, level)[..n] == SortBy(le, level)[..n];
    PrefixBeats(le, SortBy(le, level), n, p, u);
  }

  lemma {:induction false} NotInSorted(le: (Meta, Meta) -> bool, files: seq<Meta>, skip: seq<nat>)
    requires SortedBy(le, files)
    ensures SortedBy(le, NotIn(files, skip))
  {
    if files != [] {
      NotInSorted(le, files[1..], skip);
      assert forall m :: m in NotIn(files[1..], skip) ==> m in files[1..];
      forall m | m in files[1..]
        ensures le(files[0], m)
      {
        var i :| 0 <= i < |files[1..]| && files[1..][i] == m;
        assert le(files[0], files[i + 1]);
      }
    }
  }

  /** Stage 2: no file that is still left out is smaller than one that this stage adds. */
  lemma SizeStagePrefersSmall(level: seq<Meta>, next: seq<Meta>, need: nat, max: nat, p: Meta, u: Meta)
    requires Total(Stage1(level, next, need, max)) < need
    requires p in Stage2(level, next, need, max) && p !in Stage1(level, next, need, max)
    requires u in level && u.file !in Names(Stage1(level, next, need, max)) && u !in Stage2(level, next, need, max)
    ensures p.size <= u.size
  {
    hide Total, BySize, Stage1, SortBy;
    var first := Stage1(level, next, need, max);
    var sorted := SortBy(SizeFirst, level);
    SizeOrder();
    SortIsSorted(SizeFirst, level);
    SortMembers(SizeFirst, level);
    NotInSorted(SizeFirst, sorted, Names(first));
    var k := BySizeIsPrefix(sorted, need, max, Names(first), first);
    PrefixBeats(SizeFirst, NotIn(sorted, Names(first)), k, p, u);
  }
}
