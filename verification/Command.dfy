/** Key spans and commands: how keys compare, when spans overlap, when commands interfere. */
module Commands {

  type Key = string

  datatype Span = Span(start: Key, end: Key)

  datatype Command = Command(id: nat, writing: bool, spans: seq<Span>)

  /** Negative, zero or positive as a sorts before, with or after b. */
  function StrCmp(a: Key, b: Key): int {
    if a == [] then (if b == [] then 0 else -1)
    else if b == [] then 1
    else if a[0] != b[0] then (if a[0] < b[0] then -1 else 1)
    else StrCmp(a[1..], b[1..])
  }

  /** a comes before b in the order of bytes: it is a proper prefix of b, or has the smaller byte
      where the two first differ. */
  ghost predicate Before(a: Key, b: Key) {
    || (|a| < |b| && b[..|a|] == a)
    || exists i :: 0 <= i < |a| && i < |b| && a[..i] == b[..i] && a[i] < b[i]
  }

  ghost predicate Le(a: Key, b: Key) {
    a == b || Before(a, b)
  }

  lemma BeforeTail(a: Key, b: Key)
    requires a != [] && b != [] && a[0] == b[0]
    ensures Before(a, b) <==> Before(a[1..], b[1..])
  {
    var x, y := a[1..], b[1..];
    assert a == [a[0]] + x && b == [b[0]] + y;
    if |a| < |b| {
      assert b[..|a|] == [b[0]] + y[..|x|];
    }
    if i :| 0 <= i < |a| && i < |b| && a[..i] == b[..i] && a[i] < b[i] {
      assert i > 0 && x[..i - 1] == a[..i][1..] && y[..i - 1] == b[..i][1..];
      assert x[i - 1] < y[i - 1];
    }
    if i :| 0 <= i < |x| && i < |y| && x[..i] == y[..i] && x[i] < y[i] {
      assert a[..i + 1] == [a[0]] + x[..i] && b[..i + 1] == [b[0]] + y[..i];
      assert a[i + 1] < b[i + 1];
    }
  }

  lemma BeforeHead(a: Key, b: Key)
    requires a == [] || b == [] || a[0] != b[0]
    ensures Before(a, b) <==> b != [] && (a == [] || a[0] < b[0])
  {
    if a != [] && b != [] {
      assert a[..0] == b[..0];
      assert |a| < |b| ==> b[..|a|][0] == b[0];
      forall i | 0 < i < |a| && i < |b| ensures a[..i] != b[..i] {
        assert a[..i][0] == a[0] && b[..i][0] == b[0];
      }
    }
  }

  /** The comparison is the one of bytes. */
  lemma {:induction false} StrCmpExact(a: Key, b: Key)
    ensures StrCmp(a, b) < 0 <==> ((|a| < |b| && b[..|a|] == a) ||
      exists i :: 0 <= i < |a| && i < |b| && a[..i] == b[..i] && a[i] < b[i])
    ensures StrCmp(a, b) == 0 <==> a == b
    ensures StrCmp(a, b) > 0 <==> Before(b, a)
  {
    if a != [] && b != [] && a[0] == b[0] {
      StrCmpExact(a[1..], b[1..]);
      BeforeTail(a, b);
      BeforeTail(b, a);
      assert a == [a[0]] + a[1..] && b == [b[0]] + b[1..];
      assert StrCmp(a[1..], b[1..]) < 0 <==> Before(a[1..], b[1..]);
    } else {
      BeforeHead(a, b);
      BeforeHead(b, a);
    }
    assert StrCmp(a, b) < 0 <==> Before(a, b);
  }

  lemma LeTotal(a: Key, b: Key)
    ensures Le(a, b) || Le(b, a)
    ensures Le(a, b) && Le(b, a) ==> a == b
    ensures StrCmp(a, b) > 0 <==> !Le(a, b)
    ensures StrCmp(a, b) <= 0 <==> Le(a, b)
    ensures StrCmp(a, b) >= 0 <==> Le(b, a)
  {
    StrCmpExact(a, b);
    assert StrCmp(a, b) < 0 <==> Before(a, b);
    hide StrCmp, Before;
  }

  lemma {:induction false} CmpTrans(a: Key, b: Key, c: Key)
    requires StrCmp(a, b) <= 0 && StrCmp(b, c) <= 0
    ensures StrCmp(a, c) <= 0
  {
    if a != [] && b != [] && c != [] && a[0] == b[0] == c[0] {
      CmpTrans(a[1..], b[1..], c[1..]);
    }
  }

  lemma LeTrans(a: Key, b: Key, c: Key)
    requires Le(a, b) && Le(b, c)
    ensures Le(a, c)
  {
    hide Le, StrCmp;
    LeTotal(a, b);
    LeTotal(b, c);
    LeTotal(a, c);
    CmpTrans(a, b, c);
  }

  lemma LeSelf(a: Key)
    ensures Le(a, a)
  {
  }

  /** Both ends belong to a span. */
  predicate Overlaps(s: Span, t: Span) {
    StrCmp(s.start, t.end) <= 0 && StrCmp(s.end, t.start) >= 0
  }

  /** k lies between the two ends of the span in the order of bytes. */
  ghost predicate Covers(s: Span, k: Key) {
    Le(s.start, k) && Le(k, s.end)
  }

  ghost predicate Proper(s: Span) {
    Le(s.start, s.end)
  }

  /** Two proper spans overlap exactly when some key lies in both. */
  lemma OverlapShared(s: Span, t: Span)
    requires Proper(s) && Proper(t)
    ensures Overlaps(s, t) <==> exists k :: Covers(s, k) && Covers(t, k)
  {
    LeTotal(s.end, t.start);
    LeTotal(s.start, t.start);
    LeTotal(s.start, t.end);
    LeTotal(t.start, s.end);
    LeSelf(s.start);
    LeSelf(t.start);
    hide Le, StrCmp;
    if Overlaps(s, t) {
      if Le(s.start, t.start) {
        assert Covers(s, t.start) && Covers(t, t.start);
      } else {
        assert Covers(s, s.start) && Covers(t, s.start);
      }
    }
    if k :| Covers(s, k) && Covers(t, k) {
      LeTrans(s.start, k, t.end);
      LeTrans(t.start, k, s.end);
    }
  }

  /** The spans of a, once for every span of b that they overlap. */
  function SpanOverlaps(s: Span, b: seq<Span>): seq<Span> {
    if b == [] then [] else SpanOverlaps(s, b[..|b| - 1]) + (if Overlaps(s, b[|b| - 1]) then [s] else [])
  }

  function AllOverlaps(a: seq<Span>, b: seq<Span>): seq<Span> {
    if a == [] then [] else AllOverlaps(a[..|a| - 1], b) + SpanOverlaps(a[|a| - 1], b)
  }

  predicate Interferes(c: Command, d: Command) {
    (c.writing || d.writing) && AllOverlaps(c.spans, d.spans) != []
  }

  /** The number of spans that the code sets aside for the result. */
  const TX_SIZE: nat := 100

  /** One turn of the outer loop: appends s once for every span of b it overlaps. Where the
      buffer is full the code writes past its end; the model stops. */
  method CollectOne(s: Span, b: seq<Span>, out: array<Span>, from: nat) returns (fits: bool, cnt: nat)
    requires from <= out.Length
    modifies out
    ensures fits <==> from + |SpanOverlaps(s, b)| <= out.Length
    ensures fits ==> cnt == from + |SpanOverlaps(s, b)| && out[..cnt] == old(out[..from]) + SpanOverlaps(s, b)
    ensures forall k :: from + |SpanOverlaps(s, b)| <= k < out.Length ==> out[k] == old(out[k])
  {
    fits, cnt := true, from;
    var j := 0;
    assert b[..0] == [];
    while j < |b|
      invariant 0 <= j <= |b| && cnt == from + |SpanOverlaps(s, b[..j])| <= out.Length
      invariant out[..cnt] == old(out[..from]) + SpanOverlaps(s, b[..j])
      invariant forall k :: cnt <= k < out.Length ==> out[k] == old(out[k])
    {
      SpanGrows(s, b, j);
      if Overlaps(s, b[j]) {
        if cnt == out.Length {
          return false, cnt;
        }
        out[cnt] := s;
        cnt := cnt + 1;
      }
      j := j + 1;
    }
    assert b[..|b|] == b;
  }

  /** Collects the overlapping spans of the first command, exactly if the buffer holds them. */
  method OverlapSparse(c: Command, d: Command, out: array<Span>) returns (fits: bool, any: bool, cnt: nat)
    modifies out
    ensures fits <==> |AllOverlaps(c.spans, d.spans)| <= out.Length
    ensures fits ==> cnt == |AllOverlaps(c.spans, d.spans)| && out[..cnt] == AllOverlaps(c.spans, d.spans)
    ensures fits ==> forall k :: cnt <= k < out.Length ==> out[k] == old(out[k])
    ensures fits ==> (any <==> cnt > 0)
  {
    fits, any, cnt := true, false, 0;
    ghost var a, b := c.spans, d.spans;
    var i := 0;
    assert a[..0] == [] && AllOverlaps(a[..0], b) == [];
    hide Overlaps, SpanOverlaps, AllOverlaps;
    while i < |c.spans|
      invariant 0 <= i <= |a| && cnt == |AllOverlaps(a[..i], b)| <= out.Length
      invariant out[..cnt] == AllOverlaps(a[..i], b)
      invariant forall k :: cnt <= k < out.Length ==> out[k] == old(out[k])
      invariant any <==> cnt > 0
    {
      OverlapsGrow(a, b, i);
      var more;
      fits, more := CollectOne(c.spans[i], d.spans, out, cnt);
      if !fits {
        return;
      }
      any := any || more > cnt;
      cnt := more;
      i := i + 1;
    }
    assert a[..|a|] == a;
  }

  lemma {:induction false} SpanOverlapsMost(s: Span, b: seq<Span>)
    ensures |SpanOverlaps(s, b)| <= |b|
    ensures (forall j :: 0 <= j < |b| ==> Overlaps(s, b[j])) ==> |SpanOverlaps(s, b)| == |b|
  {
    if b != [] {
      SpanOverlapsMost(s, b[..|b| - 1]);
    }
  }

  /** Every span of a meets every span of b. */
  ghost predicate AllMeet(a: seq<Span>, b: seq<Span>) {
    forall i, j :: 0 <= i < |a| && 0 <= j < |b| ==> Overlaps(a[i], b[j])
  }

  /** n times k. */
  function Times(n: nat, k: nat): nat {
    if n == 0 then 0 else Times(n - 1, k) + k
  }

  lemma {:induction false} TimesIs(n: nat, k: nat)
    ensures Times(n, k) == n * k
  {
    if n > 0 {
      TimesIs(n - 1, k);
    }
  }

  lemma {:induction false} OverlapsMost(a: seq<Span>, b: seq<Span>)
    ensures |AllOverlaps(a, b)| <= Times(|a|, |b|)
    ensures AllMeet(a, b) ==> |AllOverlaps(a, b)| == Times(|a|, |b|)
  {
    hide Overlaps, SpanOverlaps;
    if a != [] {
      var n := |a| - 1;
      OverlapsMost(a[..n], b);
      SpanOverlapsMost(a[n], b);
    }
  }

  /** Commands of m and n spans always fit into a buffer of the given size exactly when the
      product of their sizes does: where every span meets every other, each pair is recorded. */
  lemma BufferExact(m: nat, n: nat, size: nat)
    ensures (forall c: Command, d: Command ::
      |c.spans| == m && |d.spans| == n ==> |AllOverlaps(c.spans, d.spans)| <= size) <==> m * n <= size
  {
    TimesIs(m, n);
    forall c: Command, d: Command | |c.spans| == m && |d.spans| == n ensures |AllOverlaps(c.spans, d.spans)| <= m * n {
      OverlapsMost(c.spans, d.spans);
    }
    SameMeet(m, n);
    OverlapsMost(Same(m).spans, Same(n).spans);
    assert |AllOverlaps(Same(m).spans, Same(n).spans)| == m * n;
  }

  /** A command of n times the same span. */
  function Same(n: nat): (c: Command)
    ensures |c.spans| == n && forall i :: 0 <= i < n ==> c.spans[i] == Span("a", "a")
  {
    Command(0, true, seq(n, _ => Span("a", "a")))
  }

  lemma SameMeet(m: nat, n: nat)
    ensures AllMeet(Same(m).spans, Same(n).spans)
  {
    assert Overlaps(Span("a", "a"), Span("a", "a"));
  }

  /** Two commands of eleven spans each, well within the limit of a command, can fail to fit. */
  lemma BufferOverrun()
    ensures 11 <= TX_SIZE && |AllOverlaps(Same(11).spans, Same(11).spans)| > TX_SIZE
  {
    SameMeet(11, 11);
    OverlapsMost(Same(11).spans, Same(11).spans);
    TimesIs(11, 11);
  }

  lemma {:induction false} OverlapsGrow(a: seq<Span>, b: seq<Span>, i: nat)
    requires i < |a|
    ensures AllOverlaps(a[..i + 1], b) == AllOverlaps(a[..i], b) + SpanOverlaps(a[i], b)
    ensures |AllOverlaps(a[..i + 1], b)| <= |AllOverlaps(a, b)|
    decreases |a| - i
  {
    assert a[..i + 1][..i] == a[..i];
    if i + 1 == |a| {
      assert a[..i + 1] == a;
    } else {
      OverlapsGrow(a, b, i + 1);
    }
  }

  lemma {:induction false} SpanGrows(s: Span, b: seq<Span>, j: nat)
    requires j < |b|
    ensures SpanOverlaps(s, b[..j + 1]) == SpanOverlaps(s, b[..j]) + (if Overlaps(s, b[j]) then [s] else [])
    ensures |SpanOverlaps(s, b[..j + 1])| <= |SpanOverlaps(s, b)|
    decreases |b| - j
  {
    assert b[..j + 1][..j] == b[..j];
    if j + 1 == |b| {
      assert b[..j + 1] == b;
    } else {
      SpanGrows(s, b, j + 1);
    }
  }

  lemma {:induction false} SpanOverlapsAny(s: Span, b: seq<Span>)
    ensures SpanOverlaps(s, b) != [] <==> exists j :: 0 <= j < |b| && Overlaps(s, b[j])
  {
    if b != [] {
      SpanOverlapsAny(s, b[..|b| - 1]);
    }
  }

  /** The spans of b that s overlaps, by position. */
  ghost function Meeting(s: Span, b: seq<Span>): set<nat> {
    set j | 0 <= j < |b| && Overlaps(s, b[j])
  }

  /** What is collected of s is s itself, once for each of them. */
  lemma {:induction false} SpanCollected(s: Span, b: seq<Span>)
    ensures |SpanOverlaps(s, b)| == |Meeting(s, b)|
    ensures forall x :: x in SpanOverlaps(s, b) ==> x == s
  {
    hide Overlaps;
    if b != [] {
      var n := |b| - 1;
      SpanCollected(s, b[..n]);
      assert Meeting(s, b) == Meeting(s, b[..n]) + (if Overlaps(s, b[n]) then {n} else {});
    }
  }

  /** What is collected of two commands: span after span of the first, each as often as it
      overlaps one of the second. */
  lemma CollectedNext(a: seq<Span>, b: seq<Span>, i: nat)
    requires i < |a|
    ensures var was, now := AllOverlaps(a[..i], b), AllOverlaps(a[..i + 1], b);
      && |now| == |was| + |Meeting(a[i], b)| && now[..|was|] == was
      && forall k :: |was| <= k < |now| ==> now[k] == a[i]
  {
    hide Overlaps, Meeting;
    assert a[..i + 1][..i] == a[..i];
    SpanCollected(a[i], b);
    forall k | 0 <= k < |SpanOverlaps(a[i], b)| ensures SpanOverlaps(a[i], b)[k] == a[i] {
      assert SpanOverlaps(a[i], b)[k] in SpanOverlaps(a[i], b);
    }
    hide SpanOverlaps;
  }

  lemma {:induction false} AllOverlapsAny(a: seq<Span>, b: seq<Span>)
    ensures AllOverlaps(a, b) != [] <==> exists i, j :: 0 <= i < |a| && 0 <= j < |b| && Overlaps(a[i], b[j])
  {
    hide Overlaps, SpanOverlaps;
    if a != [] {
      var n := |a| - 1;
      var front := a[..n];
      AllOverlapsAny(front, b);
      SpanOverlapsAny(a[n], b);
      assert forall i :: 0 <= i < n ==> front[i] == a[i];
    }
  }

  /** Commands over proper spans interfere exactly when one of them writes and they share a key. */
  lemma InterferesExact(c: Command, d: Command)
    requires (forall s :: s in c.spans ==> Proper(s)) && (forall s :: s in d.spans ==> Proper(s))
    ensures Interferes(c, d) <==> ((c.writing || d.writing) &&
      exists i, j, k :: 0 <= i < |c.spans| && 0 <= j < |d.spans| && Covers(c.spans[i], k) && Covers(d.spans[j], k))
  {
    AllOverlapsAny(c.spans, d.spans);
    forall i, j | 0 <= i < |c.spans| && 0 <= j < |d.spans|
      ensures Overlaps(c.spans[i], d.spans[j]) <==> exists k :: Covers(c.spans[i], k) && Covers(d.spans[j], k)
    {
      OverlapShared(c.spans[i], d.spans[j]);
    }
  }
}
