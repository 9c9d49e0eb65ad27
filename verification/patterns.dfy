/**
 * The three shapes of regular expression the simulator uses, with JavaScript's
 * backtracking semantics (no flags: `.` refuses line terminators, the leftmost
 * match wins, then the quantifier's preferred length):
 *
 * - `open(.+?)close` -- lazy capture: the shortest non-empty group;
 * - `open(.+)close`  -- greedy capture: the longest non-empty group;
 * - `SRC=.*?, DEST=.*?, ` -- the data-link layer's MAC header.
 *
 * Each search is specified by a predicate saying what a match is, and each
 * search function is proved to return the match the regex engine prefers.
 */
module Patterns {
  import opened Wrappers
  import opened Strings

  // ---------------------------------------------------------------------
  // Single-line runs
  // ---------------------------------------------------------------------

  /** `.*` can run from `from` up to `q`, where `p` follows. */
  predicate Reaches(s: string, from: nat, p: string, q: nat) {
    from <= q <= |s| && SingleLine(s[from..q]) && OccursAt(s, p, q)
  }

  /** Nothing `p` can be reached from `from`. */
  ghost predicate Unreachable(s: string, from: nat, p: string) {
    forall q: nat :: !Reaches(s, from, p, q)
  }

  /** `p` cannot be reached from `from` beyond `q0`. */
  ghost predicate UnreachableBeyond(s: string, from: nat, p: string, q0: nat) {
    forall q: nat :: q0 < q ==> !Reaches(s, from, p, q)
  }

  lemma SingleLineStep(s: string, from: nat, q: nat)
    requires from < q <= |s|
    ensures SingleLine(s[from..q]) <==> !IsLineTerminator(s[from]) && SingleLine(s[from + 1..q])
  {
    assert s[from..q][0] == s[from];
    assert s[from..q][1..] == s[from + 1..q];
    if !IsLineTerminator(s[from]) && SingleLine(s[from + 1..q]) {
      forall k | 0 <= k < q - from
        ensures !IsLineTerminator(s[from..q][k])
      {
        if k > 0 {
          assert s[from..q][k] == s[from + 1..q][k - 1];
        }
      }
    }
  }

  lemma SingleLineSplit(s: string, a: nat, b: nat, c: nat)
    requires a <= b <= c <= |s|
    ensures SingleLine(s[a..c]) <==> SingleLine(s[a..b]) && SingleLine(s[b..c])
  {
    assert s[a..c] == s[a..b] + s[b..c];
    if SingleLine(s[a..b]) && SingleLine(s[b..c]) {
      forall k | 0 <= k < c - a
        ensures !IsLineTerminator(s[a..c][k])
      {
        if k < b - a {
          assert s[a..c][k] == s[a..b][k];
        } else {
          assert s[a..c][k] == s[b..c][k - (b - a)];
        }
      }
    }
    if SingleLine(s[a..c]) {
      forall k | 0 <= k < b - a
        ensures !IsLineTerminator(s[a..b][k])
      {
        assert s[a..b][k] == s[a..c][k];
      }
      forall k | 0 <= k < c - b
        ensures !IsLineTerminator(s[b..c][k])
      {
        assert s[b..c][k] == s[a..c][k + (b - a)];
      }
    }
  }

  /** The smallest `q` that `.*?` followed by `p` can reach from `from`. */
  function Seek(s: string, from: nat, p: string): (r: Option<nat>)
    requires from <= |s|
    decreases |s| - from
    ensures r.Some? ==> Reaches(s, from, p, r.value)
    ensures r.Some? ==> forall q: nat :: q < r.value ==> !Reaches(s, from, p, q)
    ensures r.None? ==> forall q: nat :: !Reaches(s, from, p, q)
  {
    if OccursAt(s, p, from) then
      assert s[from..from] == [];
      Some(from)
    else if from == |s| || IsLineTerminator(s[from]) then
      SeekStop(s, from, p);
      None
    else
      SeekShift(s, from, p);
      Seek(s, from + 1, p)
  }

  lemma SeekStop(s: string, from: nat, p: string)
    requires from <= |s| && !OccursAt(s, p, from)
    requires from == |s| || IsLineTerminator(s[from])
    ensures forall q: nat :: !Reaches(s, from, p, q)
  {
    forall q: nat | from < q <= |s|
      ensures !SingleLine(s[from..q])
    {
      SingleLineStep(s, from, q);
    }
  }

  lemma SeekShift(s: string, from: nat, p: string)
    requires from < |s| && !IsLineTerminator(s[from]) && !OccursAt(s, p, from)
    ensures forall q: nat :: Reaches(s, from, p, q) <==> Reaches(s, from + 1, p, q)
  {
    forall q: nat | from < q <= |s|
      ensures SingleLine(s[from..q]) <==> SingleLine(s[from + 1..q])
    {
      SingleLineStep(s, from, q);
    }
  }

  /** The largest `q` that `.*` followed by `p` can reach from `from`. */
  function SeekLast(s: string, from: nat, p: string): (r: Option<nat>)
    requires from <= |s|
    decreases |s| - from
    ensures r.Some? ==> Reaches(s, from, p, r.value)
    ensures r.Some? ==> forall q: nat :: r.value < q ==> !Reaches(s, from, p, q)
    ensures r.None? ==> forall q: nat :: !Reaches(s, from, p, q)
  {
    var later := if from < |s| && !IsLineTerminator(s[from]) then SeekLast(s, from + 1, p) else None;
    if later.Some? then
      SeekLastShift(s, from, p, later.value);
      later
    else if OccursAt(s, p, from) then
      SeekLastHere(s, from, p);
      Some(from)
    else
      SeekLastNone(s, from, p);
      None
  }

  lemma SeekLastShift(s: string, from: nat, p: string, q0: nat)
    requires from < |s| && !IsLineTerminator(s[from])
    requires Reaches(s, from + 1, p, q0)
    requires UnreachableBeyond(s, from + 1, p, q0)
    ensures Reaches(s, from, p, q0)
    ensures UnreachableBeyond(s, from, p, q0)
  {
    SingleLineStep(s, from, q0);
    var next := from + 1;
    forall q: nat | q0 < q
      ensures !Reaches(s, from, p, q)
    {
      if q <= |s| {
        SingleLineStep(s, from, q);
        assert !Reaches(s, next, p, q);
      }
    }
  }

  lemma SeekLastHere(s: string, from: nat, p: string)
    requires from <= |s| && OccursAt(s, p, from)
    requires from == |s| || IsLineTerminator(s[from]) || Unreachable(s, from + 1, p)
    ensures Reaches(s, from, p, from)
    ensures UnreachableBeyond(s, from, p, from)
  {
    assert s[from..from] == [];
    SeekLastBeyond(s, from, p);
  }

  lemma SeekLastNone(s: string, from: nat, p: string)
    requires from <= |s| && !OccursAt(s, p, from)
    requires from == |s| || IsLineTerminator(s[from]) || Unreachable(s, from + 1, p)
    ensures Unreachable(s, from, p)
  {
    SeekLastBeyond(s, from, p);
  }

  lemma SeekLastBeyond(s: string, from: nat, p: string)
    requires from <= |s|
    requires from == |s| || IsLineTerminator(s[from]) || Unreachable(s, from + 1, p)
    ensures UnreachableBeyond(s, from, p, from)
  {
    var next := from + 1;
    forall q: nat | from < q
      ensures !Reaches(s, from, p, q)
    {
      if q <= |s| {
        SingleLineStep(s, from, q);
        if from < |s| && !IsLineTerminator(s[from]) {
          assert !Reaches(s, next, p, q);
        }
      }
    }
  }

  // ---------------------------------------------------------------------
  // open(.+?)close and open(.+)close
  // ---------------------------------------------------------------------

  /** `open` at `i`, then a non-empty single-line group, then `close` at `q`. */
  predicate CaptureAt(s: string, open: string, close: string, i: nat, q: nat) {
    OccursAt(s, open, i) && i + |open| < q && Reaches(s, i + |open|, close, q)
  }

  /** A match found by a search: the match starts at `start`, its group ends where `close` begins. */
  datatype Hit = Hit(start: nat, close: nat)

  lemma CaptureShift(s: string, open: string, close: string, i: nat)
    requires OccursAt(s, open, i) && i + |open| < |s|
    ensures forall q: nat :: CaptureAt(s, open, close, i, q) <==>
      !IsLineTerminator(s[i + |open|]) && Reaches(s, i + |open| + 1, close, q)
  {
    var f := i + |open|;
    forall q: nat | f < q <= |s|
      ensures SingleLine(s[f..q]) <==> !IsLineTerminator(s[f]) && SingleLine(s[f + 1..q])
    {
      SingleLineStep(s, f, q);
    }
  }

  /** The lazy group end for a match starting at `i`, if one starts there. */
  function LazyAt(s: string, open: string, close: string, i: nat): (r: Option<nat>)
    ensures r.Some? ==> CaptureAt(s, open, close, i, r.value)
    ensures r.Some? ==> forall q: nat :: CaptureAt(s, open, close, i, q) ==> r.value <= q
    ensures r.None? ==> forall q: nat :: !CaptureAt(s, open, close, i, q)
  {
    if OccursAt(s, open, i) && i + |open| < |s| then
      CaptureShift(s, open, close, i);
      if IsLineTerminator(s[i + |open|]) then None else Seek(s, i + |open| + 1, close)
    else None
  }

  /** The greedy group end for a match starting at `i`, if one starts there. */
  function GreedyAt(s: string, open: string, close: string, i: nat): (r: Option<nat>)
    ensures r.Some? ==> CaptureAt(s, open, close, i, r.value)
    ensures r.Some? ==> forall q: nat :: CaptureAt(s, open, close, i, q) ==> q <= r.value
    ensures r.None? ==> forall q: nat :: !CaptureAt(s, open, close, i, q)
  {
    if OccursAt(s, open, i) && i + |open| < |s| then
      CaptureShift(s, open, close, i);
      if IsLineTerminator(s[i + |open|]) then None else SeekLast(s, i + |open| + 1, close)
    else None
  }

  /** No match of `open(.+)close` starts in `[from, upto)`. */
  ghost predicate NoCaptureBetween(s: string, open: string, close: string, from: nat, upto: nat) {
    forall i: nat, q: nat :: from <= i < upto ==> !CaptureAt(s, open, close, i, q)
  }

  /** The leftmost match of `open(.+?)close` (lazy) or `open(.+)close` (greedy) starting at or after `i`. */
  function Find(s: string, open: string, close: string, greedy: bool, i: nat): (r: Option<Hit>)
    decreases |s| + 1 - i
    ensures r.Some? ==> i <= r.value.start && CaptureAt(s, open, close, r.value.start, r.value.close)
    ensures r.Some? ==> NoCaptureBetween(s, open, close, i, r.value.start)
    ensures r.Some? && !greedy ==> forall q: nat :: CaptureAt(s, open, close, r.value.start, q) ==> r.value.close <= q
    ensures r.Some? && greedy ==> forall q: nat :: CaptureAt(s, open, close, r.value.start, q) ==> q <= r.value.close
    ensures r.None? ==> NoCaptureBetween(s, open, close, i, i + |s| + 1)
  {
    if i > |s| then
      assert forall j: nat :: j >= i ==> !OccursAt(s, open, j);
      None
    else
      var here := if greedy then GreedyAt(s, open, close, i) else LazyAt(s, open, close, i);
      if here.Some? then Some(Hit(i, here.value))
      else
        var rest := Find(s, open, close, greedy, i + 1);
        assert forall j: nat :: j > |s| ==> !OccursAt(s, open, j);
        rest
  }

  /** `s.match(/open(.+?)close/)?.[1]`: the group of the leftmost lazy match. */
  function LazyGroup(s: string, open: string, close: string): (r: Option<string>)
    ensures r.None? <==> forall i: nat, q: nat :: !CaptureAt(s, open, close, i, q)
    ensures r.Some? ==> |r.value| > 0 && SingleLine(r.value)
  {
    match Find(s, open, close, false, 0)
    case Some(h) => Some(s[h.start + |open|..h.close])
    case None => None
  }

  /** `s.match(/open(.+)close/)?.[1]`: the group of the leftmost greedy match. */
  function GreedyGroup(s: string, open: string, close: string): (r: Option<string>)
    ensures r.None? <==> forall i: nat, q: nat :: !CaptureAt(s, open, close, i, q)
    ensures r.Some? ==> |r.value| > 0 && SingleLine(r.value)
  {
    match Find(s, open, close, true, 0)
    case Some(h) => Some(s[h.start + |open|..h.close])
    case None => None
  }

  /** `s.replace(/open(.+?)close/, "")`: the leftmost lazy match is cut out. */
  function LazyCut(s: string, open: string, close: string): (r: string)
    ensures (forall i: nat, q: nat :: !CaptureAt(s, open, close, i, q)) ==> r == s
    ensures |r| <= |s|
  {
    match Find(s, open, close, false, 0)
    case Some(h) => s[..h.start] + s[h.close + |close|..]
    case None => s
  }

  /**
   * Where `open` first appears at `|a|` (it does not occur in `a + open` earlier),
   * a match that starts there is the leftmost one.
   */
  lemma FindAt(s: string, a: string, open: string, close: string, greedy: bool, q: nat)
    requires |a| + |open| <= |s| && s[..|a| + |open|] == a + open
    requires IsFirst(a + open, open, |a|)
    requires CaptureAt(s, open, close, |a|, q)
    ensures Find(s, open, close, greedy, 0).Some?
    ensures Find(s, open, close, greedy, 0).value.start == |a|
  {
    var r := Find(s, open, close, greedy, 0);
    assert r.Some?;
    forall j: nat | j < |a|
      ensures !OccursAt(s, open, j)
    {
      if j + |open| <= |s| {
        assert s[j..j + |open|] == s[..|a| + |open|][j..j + |open|];
        assert !OccursAt(a + open, open, j);
      }
    }
  }

  /**
   * The lazy group of `a + open + x + close + b`, where `open` first appears
   * after `a`, is `x` when `x` is a non-empty line holding no `close`.
   */
  lemma LazyGroupWrapped(a: string, open: string, x: string, c: char, b: string)
    requires IsFirst(a + open, open, |a|)
    requires |x| > 0 && SingleLine(x) && c !in x
    ensures LazyGroup(a + open + x + [c] + b, open, [c]) == Some(x)
  {
    var s := a + open + x + [c] + b;
    var f := |a| + |open|;
    var q := f + |x|;
    assert s[..f] == a + open;
    assert s[f..q] == x;
    assert s[q..q + 1] == [c];
    assert CaptureAt(s, open, [c], |a|, q);
    FindAt(s, a, open, [c], false, q);
    var h := Find(s, open, [c], false, 0).value;
    forall q': nat | f < q' < q
      ensures !OccursAt(s, [c], q')
    {
      assert s[q'] == x[q' - f];
    }
  }

  /**
   * Cutting the leftmost lazy match out of `a + open + x + c + b`, where
   * `open` first appears after `a`, leaves `a + b` when `x` is a non-empty
   * line holding no `c`.
   */
  lemma LazyCutWrapped(a: string, open: string, x: string, c: char, b: string)
    requires IsFirst(a + open, open, |a|)
    requires |x| > 0 && SingleLine(x) && c !in x
    ensures LazyCut(a + open + x + [c] + b, open, [c]) == a + b
  {
    var s := a + open + x + [c] + b;
    var f := |a| + |open|;
    var q := f + |x|;
    assert s[..f] == a + open;
    assert s[f..q] == x;
    assert s[q..q + 1] == [c];
    assert CaptureAt(s, open, [c], |a|, q);
    FindAt(s, a, open, [c], false, q);
    forall q': nat | f < q' < q
      ensures !OccursAt(s, [c], q')
    {
      assert s[q'] == x[q' - f];
    }
    assert s[..|a|] == a;
    assert s[q + 1..] == b;
  }

  /**
   * The greedy group of `a + open + x + close`, where `open` first appears
   * after `a`, is `x` when `x` is a non-empty line (it may hold `close`).
   */
  lemma GreedyGroupWrapped(a: string, open: string, x: string, close: string)
    requires IsFirst(a + open, open, |a|)
    requires |x| > 0 && SingleLine(x)
    ensures GreedyGroup(a + open + x + close, open, close) == Some(x)
  {
    var s := a + open + x + close;
    var f := |a| + |open|;
    var q := f + |x|;
    assert s[..f] == a + open;
    assert s[f..q] == x;
    assert s[q..q + |close|] == close;
    assert CaptureAt(s, open, close, |a|, q);
    FindAt(s, a, open, close, true, q);
  }

  /** Nothing is captured between an opener and a closer that touch: the group would be empty. */
  lemma EmptyGroupUnmatched(a: string, open: string, close: string)
    requires |open| > 0 && open[0] !in a
    ensures forall i: nat, q: nat :: !CaptureAt(a + open + close, open, close, i, q)
    ensures LazyGroup(a + open + close, open, close) == None
    ensures GreedyGroup(a + open + close, open, close) == None
  {
    var s := a + open + close;
    forall i: nat, q: nat
      ensures !CaptureAt(s, open, close, i, q)
    {
      if i < |a| && i + |open| <= |s| {
        assert s[i..i + |open|][0] == s[i] == a[i];
      }
    }
  }

  // ---------------------------------------------------------------------
  // SRC=.*?, DEST=.*?,
  // ---------------------------------------------------------------------

  const SrcTag: string := "SRC="
  const DestTag: string := ", DEST="
  const Separator: string := ", "

  /** A MAC-header match at `i` whose first `.*?` stops at `q` and second at `r`. */
  predicate MacHeaderAt(s: string, i: nat, q: nat, r: nat) {
    OccursAt(s, SrcTag, i) && Reaches(s, i + 4, DestTag, q) && Reaches(s, q + 7, Separator, r)
  }

  lemma DestTagSingleLine()
    ensures SingleLine(DestTag)
  {
  }

  /** No `p` can be reached from `from` before `q0`. */
  ghost predicate UnreachableBefore(s: string, from: nat, p: string, q0: nat) {
    forall q: nat :: q < q0 ==> !Reaches(s, from, p, q)
  }

  /**
   * Backtracking into the first `.*?` cannot help: if no separator follows the
   * first `, DEST=`, none follows a later one either.
   */
  lemma MacAtNone(s: string, i: nat, q: nat)
    requires Reaches(s, i + 4, DestTag, q)
    requires UnreachableBefore(s, i + 4, DestTag, q)
    requires Unreachable(s, q + 7, Separator)
    ensures forall q': nat, r: nat :: !MacHeaderAt(s, i, q', r)
  {
    var f := i + 4;
    var a := q + 7;
    forall q': nat | Reaches(s, f, DestTag, q')
      ensures Unreachable(s, q' + 7, Separator)
    {
      assert q <= q';
      var b := q' + 7;
      assert s[q'..b] == DestTag;
      DestTagSingleLine();
      SingleLineSplit(s, f, q', b);
      SingleLineSplit(s, f, a, b);
      forall r: nat
        ensures !Reaches(s, b, Separator, r)
      {
        if b <= r <= |s| {
          SingleLineSplit(s, a, b, r);
          assert !Reaches(s, a, Separator, r);
        }
      }
    }
  }

  /** The preferred MAC-header match at `i`, as the pair of stops `(q, r)`. */
  function MacAt(s: string, i: nat): (m: Option<(nat, nat)>)
    ensures m.Some? ==> MacHeaderAt(s, i, m.value.0, m.value.1)
    ensures m.Some? ==> forall q: nat, r: nat :: MacHeaderAt(s, i, q, r) ==>
      m.value.0 < q || (m.value.0 == q && m.value.1 <= r)
    ensures m.None? ==> forall q: nat, r: nat :: !MacHeaderAt(s, i, q, r)
  {
    if OccursAt(s, SrcTag, i) then
      match Seek(s, i + 4, DestTag)
      case None => None
      case Some(q) =>
        match Seek(s, q + 7, Separator)
        case Some(r) => Some((q, r))
        case None =>
          MacAtNone(s, i, q);
          None
    else None
  }

  /** A MAC-header match with its start. */
  datatype MacHit = MacHit(start: nat, dest: nat, sep: nat)

  /** The leftmost, then preferred, MAC-header match starting at or after `i`. */
  function FindMac(s: string, i: nat): (m: Option<MacHit>)
    decreases |s| + 1 - i
    ensures m.Some? ==> i <= m.value.start && MacHeaderAt(s, m.value.start, m.value.dest, m.value.sep)
    ensures m.Some? ==> forall j: nat, q: nat, r: nat :: i <= j < m.value.start ==> !MacHeaderAt(s, j, q, r)
    ensures m.Some? ==> forall q: nat, r: nat :: MacHeaderAt(s, m.value.start, q, r) ==>
      m.value.dest < q || (m.value.dest == q && m.value.sep <= r)
    ensures m.None? ==> forall j: nat, q: nat, r: nat :: i <= j ==> !MacHeaderAt(s, j, q, r)
  {
    if i > |s| then
      assert forall j: nat :: j >= i ==> !OccursAt(s, SrcTag, j);
      None
    else
      match MacAt(s, i)
      case Some((q, r)) => Some(MacHit(i, q, r))
      case None =>
        var rest := FindMac(s, i + 1);
        rest
  }

  /** `s.replace(/SRC=.*?, DEST=.*?, /, "")`. */
  function CutMacHeader(s: string): (r: string)
    ensures (forall j: nat, q: nat, k: nat :: !MacHeaderAt(s, j, q, k)) ==> r == s
    ensures |r| <= |s|
  {
    match FindMac(s, 0)
    case Some(h) => s[..h.start] + s[h.sep + 2..]
    case None => s
  }

  /** A pattern starting with a character absent from `x` occurs nowhere inside a copy of `x`. */
  lemma AbsentWithin(s: string, x: string, lo: nat, p: string)
    requires lo + |x| <= |s| && s[lo..lo + |x|] == x
    requires |p| > 0 && p[0] !in x
    ensures forall j: nat :: lo <= j < lo + |x| ==> !OccursAt(s, p, j)
  {
    forall j: nat | lo <= j < lo + |x|
      ensures !OccursAt(s, p, j)
    {
      assert s[j] == x[j - lo];
      if j + |p| <= |s| {
        assert s[j..j + |p|][0] == s[j];
      }
    }
  }

  /** A MAC header at the front with no earlier stops is the one cut. */
  lemma CutMacHeaderAtFront(s: string, q: nat, r: nat)
    requires MacHeaderAt(s, 0, q, r)
    requires forall j: nat :: 4 <= j < q ==> !OccursAt(s, DestTag, j)
    requires forall j: nat :: q + 7 <= j < r ==> !OccursAt(s, Separator, j)
    ensures CutMacHeader(s) == s[r + 2..]
  {
    var m := MacAt(s, 0);
    assert m.Some?;
    var q0, r0 := m.value.0, m.value.1;
    assert FindMac(s, 0) == Some(MacHit(0, q0, r0));
    assert q0 <= q;
    assert OccursAt(s, DestTag, q0);
    assert q0 == q;
    assert OccursAt(s, Separator, r0);
    assert r0 == r;
    assert s[..0] == [];
  }

  /**
   * A header `SRC=src, DEST=dst, ` at the very front is cut exactly when the
   * addresses are single-line and hold no `,`.
   */
  lemma CutMacHeaderFront(src: string, dst: string, rest: string)
    requires SingleLine(src) && SingleLine(dst) && ',' !in src && ',' !in dst
    ensures CutMacHeader(SrcTag + src + DestTag + dst + Separator + rest) == rest
  {
    var s := SrcTag + src + DestTag + dst + Separator + rest;
    var q := 4 + |src|;
    var a := q + 7;
    var r := a + |dst|;
    assert s[..4] == SrcTag;
    assert s[4..q] == src;
    assert s[q..a] == DestTag;
    assert s[a..r] == dst;
    assert s[r..r + 2] == Separator;
    assert s[r + 2..] == rest;
    assert MacHeaderAt(s, 0, q, r);
    AbsentWithin(s, src, 4, DestTag);
    AbsentWithin(s, dst, a, Separator);
    CutMacHeaderAtFront(s, q, r);
  }
}
