/** Sorted sets: a score map and an ordered index that must agree, and the commands over them. */
module ZSets {
  import opened Bytes

  type Member = seq<byte>
  /** Doubles other than NaN are totally ordered; only their order matters here. */
  type Score = int
  type Pair = (Score, Member)
  type Scores = map<Member, Score>

  // --------------------------------------------------------------------- order

  /** Byte strings in dictionary order. */
  predicate Less(a: Member, b: Member) {
    b != [] && (a == [] || a[0] < b[0] || (a[0] == b[0] && Less(a[1..], b[1..])))
  }

  lemma {:induction false} LessTotal(a: Member, b: Member)
    ensures Less(a, b) || Less(b, a) || a == b
    ensures !(Less(a, b) && Less(b, a)) && !Less(a, a)
  {
    if a != [] && b != [] && a[0] == b[0] {
      LessTotal(a[1..], b[1..]);
      assert a == [a[0]] + a[1..] && b == [b[0]] + b[1..];
    }
    if a != [] {
      LessTotal(a[1..], a[1..]);
    }
  }

  lemma {:induction false} LessTransitive(a: Member, b: Member, c: Member)
    requires Less(a, b) && Less(b, c)
    ensures Less(a, c)
  {
    if a != [] && a[0] == b[0] == c[0] {
      LessTransitive(a[1..], b[1..], c[1..]);
    }
  }

  predicate Before(p: Pair, q: Pair) {
    p.0 < q.0 || (p.0 == q.0 && Less(p.1, q.1))
  }

  lemma BeforeTotal(p: Pair, q: Pair)
    ensures Before(p, q) || Before(q, p) || p == q
    ensures !(Before(p, q) && Before(q, p)) && !Before(p, p)
  {
    LessTotal(p.1, q.1);
    LessTotal(p.1, p.1);
  }

  lemma BeforeTransitive(p: Pair, q: Pair, r: Pair)
    requires Before(p, q) && Before(q, r)
    ensures Before(p, r)
  {
    if Less(p.1, q.1) && Less(q.1, r.1) {
      LessTransitive(p.1, q.1, r.1);
    }
  }

  /** Byte strings compare by their first difference, a proper prefix coming before what it begins. */
  lemma {:induction false} LessMeaning(a: Member, b: Member)
    ensures Less(a, b) <==>
              exists k :: 0 <= k <= |a| && k < |b| && a[..k] == b[..k] && (k == |a| || a[k] < b[k])
    decreases |a|
  {
    if b != [] && a != [] && a[0] == b[0] {
      LessMeaning(a[1..], b[1..]);
      if k :| 0 <= k <= |a[1..]| && k < |b[1..]| && a[1..][..k] == b[1..][..k] && (k == |a[1..]| || a[1..][k] < b[1..][k]) {
        assert a[..k + 1] == [a[0]] + a[1..][..k] == [b[0]] + b[1..][..k] == b[..k + 1];
      }
      if k :| 0 <= k <= |a| && k < |b| && a[..k] == b[..k] && (k == |a| || a[k] < b[k]) {
        assert k > 0;
        assert a[1..][..k - 1] == a[..k][1..] == b[..k][1..] == b[1..][..k - 1];
      }
    } else if b != [] {
      assert a[..0] == b[..0];
      if a != [] {
        assert forall k :: 0 < k <= |a| && k < |b| ==> a[..k][0] == a[0] && b[..k][0] == b[0];
      }
    }
  }

  /** Lower scores come first, and members of one score in dictionary order. */
  lemma BeforeMeaning(p: Pair, q: Pair)
    ensures Before(p, q) <==> if p.0 == q.0 then Less(p.1, q.1) else p.0 < q.0
  {}

  predicate Ordered(items: seq<Pair>) {
    forall i, j :: 0 <= i < j < |items| ==> Before(items[i], items[j])
  }

  /** `items` is the ordered index of `scores`: its pairs, each once, ascending. */
  ghost predicate Index(items: seq<Pair>, scores: Scores) {
    && Ordered(items)
    && (forall p :: p in items <==> p.1 in scores && scores[p.1] == p.0)
  }

  // ----------------------------------------------------------- the ordered tree

  /** `BTreeSet::insert`. */
  function With(items: seq<Pair>, p: Pair): (r: seq<Pair>)
    ensures forall q :: q in r <==> q in items || q == p
  {
    if items == [] || Before(p, items[0]) then [p] + items
    else if items[0] == p then items
    else [items[0]] + With(items[1..], p)
  }

  /** `BTreeSet::remove`. */
  function Without(items: seq<Pair>, p: Pair): (r: seq<Pair>)
    ensures forall q :: q in r ==> q in items
    ensures forall q :: q in items && q != p ==> q in r
  {
    if items == [] then []
    else if items[0] == p then items[1..]
    else [items[0]] + Without(items[1..], p)
  }

  lemma {:induction false} WithOrdered(items: seq<Pair>, p: Pair)
    requires Ordered(items)
    ensures Ordered(With(items, p))
  {
    hide Before;
    if items == [] {
    } else if Before(p, items[0]) {
      forall i | 0 < i < |items|
        ensures Before(p, items[i])
      {
        BeforeTransitive(p, items[0], items[i]);
      }
    } else if items[0] != p {
      BeforeTotal(p, items[0]);
      WithOrdered(items[1..], p);
      var rest := With(items[1..], p);
      forall j | 0 <= j < |rest|
        ensures Before(items[0], rest[j])
      {
        assert rest[j] in items[1..] || rest[j] == p;
      }
    }
  }

  lemma {:induction false} WithoutOrdered(items: seq<Pair>, p: Pair)
    requires Ordered(items)
    ensures Ordered(Without(items, p)) && p !in Without(items, p)
  {
    hide Before;
    if items == [] {
    } else if items[0] == p {
      if p in items[1..] {
        var i :| 0 <= i < |items[1..]| && items[1..][i] == p;
        assert Before(items[0], items[i + 1]);
        BeforeTotal(p, p);
      }
    } else {
      WithoutOrdered(items[1..], p);
      var rest := Without(items[1..], p);
      forall j | 0 <= j < |rest|
        ensures Before(items[0], rest[j])
      {
        assert rest[j] in items[1..];
      }
    }
  }

  // --------------------------------------------------- what the index determines

  /** A score map has one index: whatever was inserted and removed to reach it, iteration is the same. */
  lemma {:induction false} IndexUnique(a: seq<Pair>, b: seq<Pair>, scores: Scores)
    requires Index(a, scores) && Index(b, scores)
    ensures a == b
  {
    SameElements(a, b);
  }

  lemma {:induction false} SameElements(a: seq<Pair>, b: seq<Pair>)
    requires Ordered(a) && Ordered(b) && forall p :: p in a <==> p in b
    ensures a == b
    decreases |a|
  {
    hide Before;
    assert b != [] ==> b[0] in b;
    if a != [] {
      assert a[0] in a && a[0] in b;
      FirstIsLeast(a, b[0]);
      FirstIsLeast(b, a[0]);
      BeforeTotal(a[0], b[0]);
      TailElements(a);
      TailElements(b);
      SameElements(a[1..], b[1..]);
      assert a == [a[0]] + a[1..] && b == [b[0]] + b[1..];
    }
  }

  lemma FirstIsLeast(items: seq<Pair>, p: Pair)
    requires Ordered(items) && p in items
    ensures p == items[0] || Before(items[0], p)
  {}

  lemma TailElements(items: seq<Pair>)
    requires Ordered(items) && items != []
    ensures Ordered(items[1..]) && forall p :: p in items[1..] <==> p in items && p != items[0]
  {
    hide Before;
    BeforeTotal(items[0], items[0]);
    forall p | p in items && p != items[0]
      ensures p in items[1..]
    {
      var i :| 0 <= i < |items| && items[i] == p;
      assert items[1..][i - 1] == p;
    }
  }

  /** How many members come before `m`. */
  ghost function RankOf(scores: Scores, m: Member): nat
    requires m in scores
  {
    |set x | x in scores && Before((scores[x], x), (scores[m], m))|
  }

  ghost function Firsts(items: seq<Pair>, n: nat): set<Member>
    requires n <= |items|
  {
    set i | 0 <= i < n :: items[i].1
  }

  lemma {:induction false} FirstsSize(items: seq<Pair>, scores: Scores, n: nat)
    requires Index(items, scores) && n <= |items|
    ensures |Firsts(items, n)| == n
  {
    hide Before, Index;
    if n > 0 {
      FirstsSize(items, scores, n - 1);
      var m := items[n - 1].1;
      forall i | 0 <= i < n - 1
        ensures items[i].1 != m
      {
        Distinct(items, scores, i, n - 1);
      }
      assert Firsts(items, n) == Firsts(items, n - 1) + {m};
    }
  }

  lemma Distinct(items: seq<Pair>, scores: Scores, i: nat, j: nat)
    requires Index(items, scores) && i < j < |items|
    ensures items[i].1 != items[j].1
  {
    assert items[i] in items && items[j] in items;
    assert Before(items[i], items[j]);
    BeforeTotal(items[i], items[j]);
  }

  /** A member's place in the index is the number of members before it. */
  lemma RankIsPlace(items: seq<Pair>, scores: Scores, i: nat)
    requires Index(items, scores) && i < |items|
    ensures items[i].1 in scores && RankOf(scores, items[i].1) == i
  {
    hide Less;
    assert items[i] in items;
    var m := items[i].1;
    var below := set x | x in scores && Before((scores[x], x), (scores[m], m));
    forall x | x in below
      ensures x in Firsts(items, i)
    {
      var p := (scores[x], x);
      assert p in items;
      var j :| 0 <= j < |items| && items[j] == p;
      PlaceBefore(items, j, i);
    }
    forall x | x in Firsts(items, i)
      ensures x in below
    {
      var j :| 0 <= j < i && items[j].1 == x;
      assert items[j] in items && Before(items[j], items[i]);
    }
    assert below == Firsts(items, i);
    FirstsSize(items, scores, i);
  }

  lemma PlaceBefore(items: seq<Pair>, j: nat, i: nat)
    requires Ordered(items) && i < |items| && j < |items|
    ensures Before(items[j], items[i]) ==> j < i
  {
    BeforeTotal(items[i], items[j]);
  }

  lemma IndexSize(items: seq<Pair>, scores: Scores)
    requires Index(items, scores)
    ensures |items| == |scores|
  {
    FirstsSize(items, scores, |items|);
    forall m | m in scores
      ensures m in Firsts(items, |items|)
    {
      assert (scores[m], m) in items;
      var i :| 0 <= i < |items| && items[i] == (scores[m], m);
      assert items[i].1 == m;
    }
    forall m | m in Firsts(items, |items|)
      ensures m in scores
    {
      var i :| 0 <= i < |items| && items[i].1 == m;
      assert items[i] in items;
    }
    assert Firsts(items, |items|) == scores.Keys;
  }

  // -------------------------------------------------------------- range queries

  datatype ScoreBound = ScoreBound(value: Score, exclusive: bool) {
    predicate Contains(score: Score) {
      if exclusive then score > value else score >= value
    }

    predicate ContainsMax(score: Score) {
      if exclusive then score < value else score <= value
    }
  }

  predicate InScores(min: ScoreBound, max: ScoreBound, score: Score) {
    min.Contains(score) && max.ContainsMax(score)
  }

  function ByScore(items: seq<Pair>, min: ScoreBound, max: ScoreBound): (r: seq<Pair>)
    ensures forall p :: p in r <==> p in items && InScores(min, max, p.0)
  {
    if items == [] then []
    else
      var rest := ByScore(items[1..], min, max);
      if InScores(min, max, items[0].0) then [items[0]] + rest else rest
  }

  function Reverse(items: seq<Pair>): (r: seq<Pair>)
    ensures |r| == |items| && forall i :: 0 <= i < |r| ==> r[i] == items[|items| - 1 - i]
  {
    seq(|items|, i requires 0 <= i < |items| => items[|items| - 1 - i])
  }

  function RangeByScore(items: seq<Pair>, min: ScoreBound, max: ScoreBound, rev: bool): seq<Pair> {
    var selected := ByScore(items, min, max);
    if rev then Reverse(selected) else selected
  }

  function Normal(index: int, len: nat): int {
    if index < 0 then index + len else index
  }

  /** The clamped bounds hold exactly the positions between the two given ones, counted from either end. */
  method ClampRange(start: int, stop: int, len: nat) returns (s: int, e: int)
    ensures s >= 0 && e < len
    ensures (s, e) == Clamped(start, stop, len)
  {
    s := if start < 0 then start + len else start;
    e := if stop < 0 then stop + len else stop;
    if s < 0 {
      s := 0;
    }
    if e >= len {
      e := len - 1;
    }
  }

  function Clamped(start: int, stop: int, len: nat): (r: (int, int))
    ensures r.0 >= 0 && r.1 < len
  {
    var s, e := Normal(start, len), Normal(stop, len);
    (if s < 0 then 0 else s, if e >= len then len - 1 else e)
  }

  lemma ClampedMeaning(start: int, stop: int, len: nat, i: nat)
    requires i < len
    ensures var (s, e) := Clamped(start, stop, len);
            s <= i <= e <==> Normal(start, len) <= i <= Normal(stop, len)
  {}

  function RangeByIndex(items: seq<Pair>, start: int, stop: int, rev: bool): seq<Pair> {
    var ordered := if rev then Reverse(items) else items;
    var (s, e) := Clamped(start, stop, |items|);
    if s > e || s >= |items| then [] else ordered[s..e + 1]
  }

  lemma {:induction false} ByScoreOrdered(items: seq<Pair>, min: ScoreBound, max: ScoreBound)
    requires Ordered(items)
    ensures Ordered(ByScore(items, min, max))
  {
    hide Before, InScores;
    if items != [] {
      ByScoreOrdered(items[1..], min, max);
      forall p | p in ByScore(items[1..], min, max)
        ensures Before(items[0], p)
      {
        assert p in items[1..];
      }
    }
  }

  /** The members whose score lies strictly between the bounds, or on one that is not exclusive. */
  function Between(scores: Scores, min: ScoreBound, max: ScoreBound): Scores {
    map m | m in scores
            && (min.value < scores[m] || (min.value == scores[m] && !min.exclusive))
            && (scores[m] < max.value || (scores[m] == max.value && !max.exclusive)) :: scores[m]
  }

  lemma BoundsMean(min: ScoreBound, max: ScoreBound, score: Score)
    ensures InScores(min, max, score) <==>
              (min.value < score || (min.value == score && !min.exclusive))
              && (score < max.value || (score == max.value && !max.exclusive))
  {}

  /** `r` is the index of `scores`, read from the low end or, with `rev`, from the high end. */
  ghost predicate Reads(r: seq<Pair>, scores: Scores, rev: bool) {
    Index(if rev then Reverse(r) else r, scores)
  }

  lemma ReverseTwice(items: seq<Pair>)
    ensures Reverse(Reverse(items)) == items
  {}

  lemma ReverseHas(items: seq<Pair>)
    ensures forall p :: p in Reverse(items) <==> p in items
  {
    forall p | p in items
      ensures p in Reverse(items)
    {
      var i :| 0 <= i < |items| && items[i] == p;
      assert Reverse(items)[|items| - 1 - i] == p;
    }
  }

  /** A score range, in either direction, is the index of the members it speaks of. */
  lemma RangeByScoreMeaning(items: seq<Pair>, scores: Scores, min: ScoreBound, max: ScoreBound, rev: bool)
    requires Index(items, scores)
    ensures Reads(RangeByScore(items, min, max, rev), Between(scores, min, max), rev)
    ensures |RangeByScore(items, min, max, rev)| == |Between(scores, min, max)|
  {
    hide Before, Reverse;
    ByScoreOrdered(items, min, max);
    forall p
      ensures p in ByScore(items, min, max) <==> p.1 in Between(scores, min, max) && Between(scores, min, max)[p.1] == p.0
    {
      BoundsMean(min, max, p.0);
    }
    IndexSize(ByScore(items, min, max), Between(scores, min, max));
    ReverseTwice(ByScore(items, min, max));
  }

  /** How many members a query in this direction passes before it comes to `m`. */
  ghost function PlaceOf(scores: Scores, m: Member, rev: bool): int
    requires m in scores
  {
    if rev then |scores| - 1 - RankOf(scores, m) else RankOf(scores, m)
  }

  /** The members placed between two positions, either counted from the far end when negative. */
  ghost function Placed(scores: Scores, start: int, stop: int, rev: bool): Scores {
    map m | m in scores
            && (if start < 0 then |scores| + start else start) <= PlaceOf(scores, m, rev)
            && PlaceOf(scores, m, rev) <= (if stop < 0 then |scores| + stop else stop) :: scores[m]
  }

  /** An index range, in either direction, is the index of the members whose places it names. */
  lemma RangeByIndexMeaning(items: seq<Pair>, scores: Scores, start: int, stop: int, rev: bool)
    requires Index(items, scores)
    ensures Reads(RangeByIndex(items, start, stop, rev), Placed(scores, start, stop, rev), rev)
  {
    hide Before, Ordered, PlaceOf, RangeByIndex, Reverse, Slice;
    StraightSlice(items, start, stop, rev);
    SliceOrdered(items, start, stop, rev);
    var straight := Slice(items, start, stop, rev);
    forall p
      ensures p in straight <==> p.1 in Placed(scores, start, stop, rev) && Placed(scores, start, stop, rev)[p.1] == p.0
    {
      if p in items {
        var i :| 0 <= i < |items| && items[i] == p;
        PlacedAt(items, scores, start, stop, rev, i);
        SliceHas(items, start, stop, rev, i);
      }
    }
  }

  /** The stretch of the index an index range covers. */
  function Slice(items: seq<Pair>, start: int, stop: int, rev: bool): seq<Pair> {
    var (s, e) := Clamped(start, stop, |items|);
    if s > e || s >= |items| then []
    else if rev then items[|items| - 1 - e..|items| - s]
    else items[s..e + 1]
  }

  lemma StraightSlice(items: seq<Pair>, start: int, stop: int, rev: bool)
    ensures var r := RangeByIndex(items, start, stop, rev);
            (if rev then Reverse(r) else r) == Slice(items, start, stop, rev)
  {
    hide Clamped;
  }

  lemma SliceOrdered(items: seq<Pair>, start: int, stop: int, rev: bool)
    requires Ordered(items)
    ensures Ordered(Slice(items, start, stop, rev))
    ensures forall p :: p in Slice(items, start, stop, rev) ==> p in items
  {
    hide Clamped, Before;
  }

  lemma PlacedAt(items: seq<Pair>, scores: Scores, start: int, stop: int, rev: bool, i: nat)
    requires Index(items, scores) && i < |items|
    ensures var place := if rev then |items| - 1 - i else i;
            items[i].1 in Placed(scores, start, stop, rev) <==> Normal(start, |items|) <= place <= Normal(stop, |items|)
  {
    hide Before, RankOf;
    IndexSize(items, scores);
    RankIsPlace(items, scores, i);
  }

  lemma SliceHas(items: seq<Pair>, start: int, stop: int, rev: bool, i: nat)
    requires Ordered(items) && i < |items|
    ensures items[i] in Slice(items, start, stop, rev)
            <==> Normal(start, |items|) <= (if rev then |items| - 1 - i else i) <= Normal(stop, |items|)
  {
    hide Before, Normal, Clamped;
    var (s, e) := Clamped(start, stop, |items|);
    ClampedMeaning(start, stop, |items|, if rev then |items| - 1 - i else i);
    var from := if rev then |items| - 1 - e else s;
    var r := Slice(items, start, stop, rev);
    if from <= i < from + |r| {
      assert r[i - from] == items[i];
    } else if items[i] in r {
      var k :| 0 <= k < |r| && r[k] == items[i];
      assert items[from + k] == items[i];
      BeforeTotal(items[i], items[i]);
    }
  }

  // ------------------------------------------------------------ edits and runs

  datatype Edit = Insert(member: Member, score: Score) | Remove(member: Member)

  /** What one edit does to the two structures. */
  function Edited(scores: Scores, sorted: seq<Pair>, e: Edit): (Scores, seq<Pair>) {
    match e
    case Insert(m, score) =>
      (scores[m := score], With(if m in scores then Without(sorted, (scores[m], m)) else sorted, (score, m)))
    case Remove(m) => if m in scores then (scores - {m}, Without(sorted, (scores[m], m))) else (scores, sorted)
  }

  function EditedAll(edits: seq<Edit>): (Scores, seq<Pair>) {
    if edits == [] then (map[], [])
    else
      var (scores, sorted) := EditedAll(edits[..|edits| - 1]);
      Edited(scores, sorted, edits[|edits| - 1])
  }

  lemma EditKeepsIndex(scores: Scores, sorted: seq<Pair>, e: Edit)
    requires Index(sorted, scores)
    ensures Index(Edited(scores, sorted, e).1, Edited(scores, sorted, e).0)
  {
    hide Before, Less, Ordered;
    if e.member in scores {
      WithoutOrdered(sorted, (scores[e.member], e.member));
    }
    if e.Insert? {
      WithOrdered(if e.member in scores then Without(sorted, (scores[e.member], e.member)) else sorted, (e.score, e.member));
    }
  }

  /** After any run of inserts and removes the ordered index is exactly the pairs of the score map. */
  lemma {:induction false} AlwaysIndexed(edits: seq<Edit>)
    ensures Index(EditedAll(edits).1, EditedAll(edits).0)
  {
    hide Index, Edited;
    if edits == [] {
      NothingIndexed();
    } else {
      AlwaysIndexed(edits[..|edits| - 1]);
      var (scores, sorted) := EditedAll(edits[..|edits| - 1]);
      EditKeepsIndex(scores, sorted, edits[|edits| - 1]);
    }
  }

  lemma NothingIndexed()
    ensures Index([], map[])
  {}

  /** Two runs that leave the same scores leave the same index, however they got there. */
  lemma OrderOfEditsInvisible(a: seq<Edit>, b: seq<Edit>)
    requires EditedAll(a).0 == EditedAll(b).0
    ensures EditedAll(a).1 == EditedAll(b).1
  {
    AlwaysIndexed(a);
    AlwaysIndexed(b);
    IndexUnique(EditedAll(a).1, EditedAll(b).1, EditedAll(a).0);
  }

  class ZSet {
    var scores: Scores
    var sorted: seq<Pair>

    ghost predicate Valid()
      reads this
    {
      Index(sorted, scores)
    }

    constructor ()
      ensures Valid() && scores == map[]
    {
      scores, sorted := map[], [];
    }

    method Insert(member: Member, score: Score) returns (isNew: bool)
      requires Valid()
      modifies this
      ensures Valid() && scores == old(scores)[member := score] && isNew == (member !in old(scores))
      ensures (scores, sorted) == Edited(old(scores), old(sorted), Edit.Insert(member, score))
    {
      EditKeepsIndex(scores, sorted, Edit.Insert(member, score));
      if member in scores {
        sorted := Without(sorted, (scores[member], member));
        sorted := With(sorted, (score, member));
        scores := scores[member := score];
        isNew := false;
      } else {
        sorted := With(sorted, (score, member));
        scores := scores[member := score];
        isNew := true;
      }
    }

    method Remove(member: Member) returns (was: bool)
      requires Valid()
      modifies this
      ensures Valid() && scores == old(scores) - {member} && was == (member in old(scores))
      ensures (scores, sorted) == Edited(old(scores), old(sorted), Edit.Remove(member))
    {
      EditKeepsIndex(scores, sorted, Edit.Remove(member));
      was := member in scores;
      if was {
        var score := scores[member];
        scores := scores - {member};
        sorted := Without(sorted, (score, member));
      }
    }

    /** The rank is how many members come before: the walk stops at the member itself. */
    method Rank(member: Member) returns (r: Option<nat>)
      requires Valid()
      ensures member !in scores ==> r == None
      ensures member in scores ==> r == Some(RankOf(scores, member))
    {
      if member !in scores {
        return None;
      }
      var target := (scores[member], member);
      assert target in sorted;
      var i := 0;
      while i < |sorted| && sorted[i] != target
        invariant i <= |sorted| && target !in sorted[..i]
      {
        i := i + 1;
      }
      RankIsPlace(sorted, scores, i);
      return Some(i);
    }

    /** Removing members one after another. */
    method RemoveAll(victims: seq<Pair>)
      requires Valid()
      modifies this
      ensures Valid() && scores == old(scores) - MembersOf(victims)
    {
      hide Index, Edited;
      assert victims[..0] == [];
      for i := 0 to |victims|
        invariant Valid() && scores == old(scores) - MembersOf(victims[..i])
      {
        MembersSnoc(victims, i);
        var _ := Remove(victims[i].1);
      }
      assert victims[..|victims|] == victims;
    }

    method ZCount(min: ScoreBound, max: ScoreBound) returns (n: nat)
      requires Valid()
      ensures n == |Between(scores, min, max)|
    {
      n := |ByScore(sorted, min, max)|;
      RangeByScoreMeaning(sorted, scores, min, max, false);
    }

    /** ZREMRANGEBYSCORE removes what the same range query returns, as many as ZCOUNT says. */
    method ZRemRangeByScore(min: ScoreBound, max: ScoreBound) returns (n: nat)
      requires Valid()
      modifies this
      ensures Valid() && scores == old(scores) - MembersOf(RangeByScore(old(sorted), min, max, false))
      ensures scores == old(scores) - Between(old(scores), min, max).Keys
      ensures n == |RangeByScore(old(sorted), min, max, false)| == |Between(old(scores), min, max)|
    {
      hide Ordered, Less, Before;
      RangeByScoreMeaning(sorted, scores, min, max, false);
      var victims := ByScore(sorted, min, max);
      IndexMembers(victims, Between(scores, min, max));
      n := |victims|;
      RemoveAll(victims);
    }

    /** ZREMRANGEBYRANK removes what the same index range returns, and never slices out of bounds. */
    method ZRemRangeByRank(start: int, stop: int) returns (n: nat)
      requires Valid()
      modifies this
      ensures Valid() && scores == old(scores) - MembersOf(RangeByIndex(old(sorted), start, stop, false))
      ensures scores == old(scores) - Placed(old(scores), start, stop, false).Keys
      ensures n == |RangeByIndex(old(sorted), start, stop, false)|
    {
      hide Index, Placed, Clamped, MembersOf;
      RangeByIndexMeaning(sorted, scores, start, stop, false);
      IndexMembers(RangeByIndex(sorted, start, stop, false), Placed(scores, start, stop, false));
      var s, e := ClampRange(start, stop, |sorted|);
      if s > e {
        NoMembers();
        return 0;
      }
      var victims := sorted[s..e + 1];
      n := |victims|;
      RemoveAll(victims);
    }

    /** ZPOPMIN and ZPOPMAX hand out the first `count` of the ascending or descending order, and remove
        those: the same members the index range `0..count-1` returns. */
    method ZPop(count: nat, min: bool) returns (popped: seq<Pair>)
      requires Valid()
      modifies this
      ensures count > 0 ==> popped == RangeByIndex(old(sorted), 0, count - 1, !min)
      ensures count == 0 ==> popped == []
      ensures Valid() && scores == old(scores) - MembersOf(popped)
    {
      hide Ordered, Less, Before;
      var items := if min then sorted else Reverse(sorted);
      popped := items[..if count < |items| then count else |items|];
      RemoveAll(popped);
    }
  }

  function MembersOf(items: seq<Pair>): set<Member> {
    set p | p in items :: p.1
  }

  lemma NoMembers()
    ensures MembersOf([]) == {}
  {}

  lemma MembersSnoc(items: seq<Pair>, i: nat)
    requires i < |items|
    ensures MembersOf(items[..i + 1]) == MembersOf(items[..i]) + {items[i].1}
  {
    assert items[..i + 1] == items[..i] + [items[i]];
    assert items[i] in items[..i + 1];
    forall p | p in items[..i]
      ensures p in items[..i + 1]
    {}
  }

  lemma IndexMembers(items: seq<Pair>, scores: Scores)
    requires Index(items, scores)
    ensures MembersOf(items) == scores.Keys
  {
    hide Ordered;
    forall m | m in scores
      ensures m in MembersOf(items)
    {
      assert (scores[m], m) in items;
    }
  }

  /** Cutting an index in two leaves the index of each part. */
  lemma CutLeavesIndex(items: seq<Pair>, scores: Scores, n: nat)
    requires Index(items, scores) && n <= |items|
    ensures Index(items[n..], scores - MembersOf(items[..n]))
    ensures Index(items[..n], scores - MembersOf(items[n..]))
  {
    hide Less, Before;
    forall p
      ensures p in items[n..] <==> p in items && p.1 !in MembersOf(items[..n])
      ensures p in items[..n] <==> p in items && p.1 !in MembersOf(items[n..])
    {
      EitherSide(items, scores, n, p);
    }
  }

  lemma EitherSide(items: seq<Pair>, scores: Scores, n: nat, p: Pair)
    requires Index(items, scores) && n <= |items|
    ensures p in items <==> p in items[..n] || p in items[n..]
    ensures p in items[n..] ==> p.1 !in MembersOf(items[..n])
    ensures p in items[..n] ==> p.1 !in MembersOf(items[n..])
  {
    hide Less, Before, Index;
    assert items == items[..n] + items[n..];
    forall i, j | 0 <= i < n <= j < |items|
      ensures items[i].1 != items[j].1
    {
      Distinct(items, scores, i, j);
    }
    assert forall q :: q in items[n..] ==> exists j :: n <= j < |items| && items[j] == q;
  }

  /** After a pop from either end, the rest of the order is what stood behind it. */
  lemma PopLeavesRest(items: seq<Pair>, scores: Scores, n: nat, min: bool)
    requires Index(items, scores) && n <= |items|
    ensures var popped := (if min then items else Reverse(items))[..n];
            Index(if min then items[n..] else items[..|items| - n], scores - MembersOf(popped))
  {
    hide Index;
    if min {
      CutLeavesIndex(items, scores, n);
    } else {
      CutLeavesIndex(items, scores, |items| - n);
      assert Reverse(items)[..n] == Reverse(items[|items| - n..]);
      var back := items[|items| - n..];
      ReverseHas(back);
      assert MembersOf(Reverse(back)) == MembersOf(back);
    }
  }
}
