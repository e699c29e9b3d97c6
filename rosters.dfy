/** The per-kind enemy lists of a round (main.py): the capture test, the
    within-kind merge `update_list_character` and the cross-kind merge
    `update_lists_character`. A merge deletes from the character list and
    from its parallel list of sprite records at the same index; here that
    is stated through the list of surviving original indices. */
module Rosters {
  import opened Wrappers
  import opened Characters

  /** The cells of a list of characters, in list order. */
  function Positions(es: seq<Enemy>): (ps: seq<Pos>)
    reads es
    ensures |ps| == |es|
    ensures forall k :: 0 <= k < |es| ==> ps[k] == es[k].Position()
  {
    seq(|es|, k requires 0 <= k < |es| reads es => es[k].Position())
  }

  // ---------------------------------------------------------------------
  // Index lists

  /** Every entry of kept is an index into a list of length n. */
  predicate Indices(kept: seq<nat>, n: nat)
  {
    forall t :: 0 <= t < |kept| ==> kept[t] < n
  }

  predicate Increasing(kept: seq<nat>)
  {
    forall s, t :: 0 <= s < t < |kept| ==> kept[s] < kept[t]
  }

  /** The indices 0, 1, ..., n - 1. */
  function Range(n: nat): (r: seq<nat>)
    ensures |r| == n && forall t :: 0 <= t < n ==> r[t] == t
  {
    if n == 0 then [] else Range(n - 1) + [n - 1]
  }

  /** The entries of xs at the indices kept, in order. */
  function Pick<T>(xs: seq<T>, kept: seq<nat>): (r: seq<T>)
    requires Indices(kept, |xs|)
    ensures |r| == |kept| && forall t :: 0 <= t < |kept| ==> r[t] == xs[kept[t]]
  {
    if kept == [] then [] else Pick(xs, kept[..|kept| - 1]) + [xs[kept[|kept| - 1]]]
  }

  /** Python's `del xs[j]`. */
  function Delete<T>(xs: seq<T>, j: int): (r: seq<T>)
    requires 0 <= j < |xs|
    ensures |r| == |xs| - 1
    ensures forall t :: 0 <= t < j ==> r[t] == xs[t]
    ensures forall t :: j <= t < |r| ==> r[t] == xs[t + 1]
  {
    xs[..j] + xs[j + 1..]
  }

  lemma DeleteKeepsIndices(kept: seq<nat>, n: nat, j: int)
    requires Indices(kept, n) && Increasing(kept) && 0 <= j < |kept|
    ensures Indices(Delete(kept, j), n) && Increasing(Delete(kept, j))
  {
    var r := Delete(kept, j);
    forall s, t | 0 <= s < t < |r| ensures r[s] < r[t] {
      var s' := if s < j then s else s + 1;
      var t' := if t < j then t else t + 1;
      assert r[s] == kept[s'] && r[t] == kept[t'] && s' < t';
    }
  }

  /** Deleting from a list picked by kept is picking without that index. */
  lemma PickDelete<T>(xs: seq<T>, kept: seq<nat>, j: int)
    requires Indices(kept, |xs|) && 0 <= j < |kept|
    ensures Indices(Delete(kept, j), |xs|)
    ensures Delete(Pick(xs, kept), j) == Pick(xs, Delete(kept, j))
  {
  }

  /** The entries of r form a subsequence of the entries of k. */
  predicate SubsequenceOf(r: seq<nat>, k: seq<nat>)
  {
    Increasing(r) && forall u :: 0 <= u < |r| ==> r[u] in k
  }

  lemma SubsequenceOfDelete(r: seq<nat>, k: seq<nat>, j: int)
    requires 0 <= j < |k| && SubsequenceOf(r, Delete(k, j))
    ensures SubsequenceOf(r, k)
  {
    forall u | 0 <= u < |r| ensures r[u] in k {
      var t :| 0 <= t < |k| - 1 && Delete(k, j)[t] == r[u];
      assert Delete(k, j)[t] == k[if t < j then t else t + 1];
    }
  }

  /** The cells occupied by the entries kept of P. */
  function Cells(P: seq<Pos>, kept: seq<nat>): set<Pos>
    requires Indices(kept, |P|)
  {
    set t | 0 <= t < |kept| :: P[kept[t]]
  }

  /** The set of cells a list of cells covers. */
  function CellSet(ps: seq<Pos>): set<Pos>
  {
    set p | p in ps
  }

  /** No object appears twice in the list. */
  predicate NoDuplicates<T(==)>(xs: seq<T>)
  {
    forall a, b :: 0 <= a < b < |xs| ==> xs[a] != xs[b]
  }

  lemma CellsIsCellSet(P: seq<Pos>, kept: seq<nat>)
    requires Indices(kept, |P|)
    ensures Cells(P, kept) == CellSet(Pick(P, kept))
  {
    forall p | p in CellSet(Pick(P, kept)) ensures p in Cells(P, kept) {
      var t :| 0 <= t < |kept| && Pick(P, kept)[t] == p;
    }
  }

  lemma PositionsPick(es: seq<Enemy>, kept: seq<nat>)
    requires Indices(kept, |es|)
    ensures Positions(Pick(es, kept)) == Pick(Positions(es), kept)
  {
  }

  /** The entries kept at increasing indices of a list without repeats are
      distinct and come from that list. */
  lemma PickKeepsNoDuplicates<T>(xs: seq<T>, kept: seq<nat>)
    requires Indices(kept, |xs|) && Increasing(kept)
    ensures NoDuplicates(xs) ==> NoDuplicates(Pick(xs, kept))
    ensures forall x :: x in Pick(xs, kept) ==> x in xs
  {
    forall x | x in Pick(xs, kept) ensures x in xs {
      var t :| 0 <= t < |kept| && Pick(xs, kept)[t] == x;
      assert xs[kept[t]] == x;
    }
  }

  /** Deleting an entry whose cell another kept entry shares leaves the
      occupied cells as they were. */
  lemma DeleteSharedKeepsCells(P: seq<Pos>, kept: seq<nat>, i: int, j: int)
    requires Indices(kept, |P|) && 0 <= i < |kept| && 0 <= j < |kept| && i != j
    requires P[kept[i]] == P[kept[j]]
    ensures Indices(Delete(kept, j), |P|)
    ensures Cells(P, Delete(kept, j)) == Cells(P, kept)
  {
    var r := Delete(kept, j);
    forall c | c in Cells(P, kept) ensures c in Cells(P, r) {
      var t :| 0 <= t < |kept| && P[kept[t]] == c;
      var t' := if t == j then i else t;
      var u := if t' < j then t' else t' - 1;
      assert r[u] == kept[t'];
    }
    forall c | c in Cells(P, r) ensures c in Cells(P, kept) {
      var u :| 0 <= u < |r| && P[r[u]] == c;
      var t := if u < j then u else u + 1;
      assert kept[t] == r[u];
    }
  }

  // ---------------------------------------------------------------------
  // Capture test

  /** One `for char in char_list` scan: some character stands on p. */
  function OnSomeCell(p: Pos, cells: seq<Pos>): (r: bool)
    ensures r <==> p in cells
  {
    if cells == [] then false
    else if p.0 == cells[0].0 && p.1 == cells[0].1 then true
    else OnSomeCell(p, cells[1..])
  }

  /** `check_explorer_is_killed`: the traps are tested first, then the four
      enemy lists in the order white mummies, red mummies, white scorpions,
      red scorpions. */
  function ExplorerIsKilled(explorer: Pos, mw: seq<Pos>, mr: seq<Pos>, sw: seq<Pos>, sr: seq<Pos>,
                            traps: seq<Pos>): (r: bool)
    ensures r <==> explorer in traps || explorer in mw || explorer in mr || explorer in sw || explorer in sr
  {
    if OnSomeCell(explorer, traps) then true
    else OnSomeCell(explorer, mw) || OnSomeCell(explorer, mr) || OnSomeCell(explorer, sw) ||
         OnSomeCell(explorer, sr)
  }

  // ---------------------------------------------------------------------
  // update_list_character as written

  /** The outer `while i < len(list_char)` of `update_list_character` as the
      source writes it, on the original indices P still in the list (kept);
      None is the IndexError raised when `list_char[i]` is read after the
      list has shrunk below i + 1. */
  function DedupOuter(P: seq<Pos>, kept: seq<nat>, i: nat): Option<seq<nat>>
    requires Indices(kept, |P|)
    decreases |kept|, |kept| - i, |kept| + 1
  {
    if i >= |kept| then Some(kept) else DedupInner(P, kept, i, 0)
  }

  /** The inner `while j < len(list_char)`: a deletion at j is followed by
      `j += 1`, so the entry moved into slot j is not compared. */
  function DedupInner(P: seq<Pos>, kept: seq<nat>, i: nat, j: nat): Option<seq<nat>>
    requires Indices(kept, |P|) && i <= |kept|
    decreases |kept|, |kept| - i, |kept| - j
  {
    if j >= |kept| then DedupOuter(P, kept, i + 1)
    else if j == i then DedupInner(P, kept, i, j + 1)
    else if i >= |kept| then None
    else if P[kept[i]] == P[kept[j]] then DedupInner(P, Delete(kept, j), i, j + 1)
    else DedupInner(P, kept, i, j + 1)
  }

  /** The source's function on a list of cells: None when it raises. */
  function DedupAsWritten(P: seq<Pos>): Option<seq<nat>>
  {
    DedupOuter(P, Range(|P|), 0)
  }

  // ---------------------------------------------------------------------
  // update_list_character with the inner loop stopped once i is past the end

  function FixedOuter(P: seq<Pos>, kept: seq<nat>, i: nat): seq<nat>
    requires Indices(kept, |P|)
    decreases |kept|, |kept| - i, |kept| + 1
  {
    if i >= |kept| then kept else FixedInner(P, kept, i, 0)
  }

  function FixedInner(P: seq<Pos>, kept: seq<nat>, i: nat, j: nat): seq<nat>
    requires Indices(kept, |P|) && i <= |kept|
    decreases |kept|, |kept| - i, |kept| - j
  {
    if j >= |kept| || i >= |kept| then FixedOuter(P, kept, i + 1)
    else if j == i then FixedInner(P, kept, i, j + 1)
    else if P[kept[i]] == P[kept[j]] then FixedInner(P, Delete(kept, j), i, j + 1)
    else FixedInner(P, kept, i, j + 1)
  }

  /** The surviving original indices of the corrected merge of cells P. */
  function Dedup(P: seq<Pos>): (r: seq<nat>)
    ensures Indices(r, |P|)
  {
    FixedOuterKeeps(P, Range(|P|), 0);
    FixedOuter(P, Range(|P|), 0)
  }

  lemma {:induction false} OuterAgrees(P: seq<Pos>, kept: seq<nat>, i: nat)
    requires Indices(kept, |P|)
    ensures DedupOuter(P, kept, i).Some? ==> DedupOuter(P, kept, i).value == FixedOuter(P, kept, i)
    decreases |kept|, |kept| - i, |kept| + 1
  {
    if i < |kept| {
      InnerAgrees(P, kept, i, 0);
    }
  }

  lemma {:induction false} InnerAgrees(P: seq<Pos>, kept: seq<nat>, i: nat, j: nat)
    requires Indices(kept, |P|) && i <= |kept|
    ensures DedupInner(P, kept, i, j).Some? ==> DedupInner(P, kept, i, j).value == FixedInner(P, kept, i, j)
    decreases |kept|, |kept| - i, |kept| - j
  {
    if j >= |kept| {
      OuterAgrees(P, kept, i + 1);
    } else if j == i {
      InnerAgrees(P, kept, i, j + 1);
    } else if i >= |kept| {
    } else if P[kept[i]] == P[kept[j]] {
      InnerAgrees(P, Delete(kept, j), i, j + 1);
    } else {
      InnerAgrees(P, kept, i, j + 1);
    }
  }

  /** Whenever the source's merge does not raise, the corrected merge keeps
      exactly the entries it keeps. */
  lemma DedupAgreesWithSource(P: seq<Pos>)
    ensures DedupAsWritten(P).Some? ==> DedupAsWritten(P).value == Dedup(P)
  {
    OuterAgrees(P, Range(|P|), 0);
  }

  /** Two white mummies on one cell, a second cell, then two more on the
      first: the pass for i = 2 deletes slot 0, and the next comparison reads
      `list_char[2]` of a two-entry list. */
  lemma DedupAsWrittenRaises()
    ensures DedupAsWritten([(1, 1), (1, 3), (1, 1), (1, 1)]) == None
  {
    var P: seq<Pos> := [(1, 1), (1, 3), (1, 1), (1, 1)];
    assert Range(4) == [0, 1, 2, 3];
    assert Delete([0, 1, 2, 3], 2) == [0, 1, 3];
    assert Delete([0, 1, 3], 0) == [1, 3];
    assert DedupInner(P, [1, 3], 2, 1) == None;
  }

  // ---------------------------------------------------------------------
  // What the corrected merge keeps

  lemma {:induction false} FixedOuterKeeps(P: seq<Pos>, kept: seq<nat>, i: nat)
    requires Indices(kept, |P|) && Increasing(kept)
    ensures Indices(FixedOuter(P, kept, i), |P|)
    ensures SubsequenceOf(FixedOuter(P, kept, i), kept)
    ensures Cells(P, FixedOuter(P, kept, i)) == Cells(P, kept)
    decreases |kept|, |kept| - i, |kept| + 1
  {
    if i < |kept| {
      FixedInnerKeeps(P, kept, i, 0);
    }
  }

  lemma {:induction false} FixedInnerKeeps(P: seq<Pos>, kept: seq<nat>, i: nat, j: nat)
    requires Indices(kept, |P|) && Increasing(kept) && i <= |kept|
    ensures Indices(FixedInner(P, kept, i, j), |P|)
    ensures SubsequenceOf(FixedInner(P, kept, i, j), kept)
    ensures Cells(P, FixedInner(P, kept, i, j)) == Cells(P, kept)
    decreases |kept|, |kept| - i, |kept| - j
  {
    if j >= |kept| || i >= |kept| {
      FixedOuterKeeps(P, kept, i + 1);
    } else if j == i {
      FixedInnerKeeps(P, kept, i, j + 1);
    } else if P[kept[i]] == P[kept[j]] {
      DeleteKeepsIndices(kept, |P|, j);
      DeleteSharedKeepsCells(P, kept, i, j);
      FixedInnerKeeps(P, Delete(kept, j), i, j + 1);
      SubsequenceOfDelete(FixedInner(P, Delete(kept, j), i, j + 1), kept, j);
    } else {
      FixedInnerKeeps(P, kept, i, j + 1);
    }
  }

  /** The corrected merge keeps a subsequence of the list, and every cell
      that was occupied before is still occupied. */
  lemma DedupKeepsEveryCell(P: seq<Pos>)
    ensures Indices(Dedup(P), |P|) && Increasing(Dedup(P))
    ensures Cells(P, Dedup(P)) == Cells(P, Range(|P|))
  {
    FixedOuterKeeps(P, Range(|P|), 0);
  }

  /** Among the entries kept, only a and b stand on their cell; while both
      are in the list they sit at or after slot i, and when one of them is
      at slot i the other has not yet been passed by j. */
  ghost predicate PairInv(P: seq<Pos>, kept: seq<nat>, i: nat, j: nat, a: nat, b: nat)
    requires Indices(kept, |P|)
  {
    (a in kept || b in kept) &&
    forall s, t :: 0 <= s < |kept| && 0 <= t < |kept| && s != t &&
                   (kept[s] == a || kept[s] == b) && (kept[t] == a || kept[t] == b) ==>
                   s >= i && t >= i && (s == i ==> t >= j)
  }

  /** No kept entry other than a or b stands on a's cell. */
  predicate OnlyPairShares(P: seq<Pos>, kept: seq<nat>, a: nat, b: nat)
    requires Indices(kept, |P|) && a < |P|
  {
    forall t :: 0 <= t < |kept| && P[kept[t]] == P[a] ==> kept[t] == a || kept[t] == b
  }

  lemma DeletePreservesOnlyPair(P: seq<Pos>, kept: seq<nat>, j: int, a: nat, b: nat)
    requires Indices(kept, |P|) && 0 <= j < |kept| && a < |P| && OnlyPairShares(P, kept, a, b)
    ensures Indices(Delete(kept, j), |P|) && OnlyPairShares(P, Delete(kept, j), a, b)
  {
    var r := Delete(kept, j);
    forall t | 0 <= t < |r| && P[r[t]] == P[a] ensures r[t] == a || r[t] == b {
      assert r[t] == kept[if t < j then t else t + 1];
    }
  }

  /** A deletion forced by slot i never removes the last of the pair. */
  lemma PairDeleteKeepsOne(P: seq<Pos>, kept: seq<nat>, i: nat, j: nat, a: nat, b: nat)
    requires Indices(kept, |P|) && a < |P| && b < |P| && a != b && P[a] == P[b]
    requires OnlyPairShares(P, kept, a, b) && (a in kept || b in kept)
    requires i < |kept| && j < |kept| && j != i && P[kept[i]] == P[kept[j]]
    ensures a in Delete(kept, j) || b in Delete(kept, j)
  {
    var r := Delete(kept, j);
    if kept[i] == a || kept[i] == b {
      assert r[if i < j then i else i - 1] == kept[i];
    } else if a in kept {
      var s :| 0 <= s < |kept| && kept[s] == a;
      assert r[if s < j then s else s - 1] == a;
    } else {
      var s :| 0 <= s < |kept| && kept[s] == b;
      assert r[if s < j then s else s - 1] == b;
    }
  }

  /** One inner step that deletes slot j keeps the pair invariant. */
  lemma PairDeleteStep(P: seq<Pos>, kept: seq<nat>, i: nat, j: nat, a: nat, b: nat)
    requires Indices(kept, |P|) && Increasing(kept) && a < |P| && b < |P| && a != b && P[a] == P[b]
    requires OnlyPairShares(P, kept, a, b) && PairInv(P, kept, i, j, a, b)
    requires i < |kept| && j < |kept| && j != i && P[kept[i]] == P[kept[j]]
    ensures Indices(Delete(kept, j), |P|) && PairInv(P, Delete(kept, j), i, j + 1, a, b)
  {
    var r := Delete(kept, j);
    DeleteKeepsIndices(kept, |P|, j);
    PairDeleteKeepsOne(P, kept, i, j, a, b);
    forall s, t | 0 <= s < |r| && 0 <= t < |r| && s != t &&
                  (r[s] == a || r[s] == b) && (r[t] == a || r[t] == b)
      ensures s >= i && t >= i && (s == i ==> t >= j + 1)
    {
      PairDeleteSlots(P, kept, i, j, a, b, s, t);
    }
  }

  lemma PairDeleteSlots(P: seq<Pos>, kept: seq<nat>, i: nat, j: nat, a: nat, b: nat, s: nat, t: nat)
    requires Indices(kept, |P|) && Increasing(kept) && a < |P| && b < |P| && P[a] == P[b]
    requires OnlyPairShares(P, kept, a, b) && PairInv(P, kept, i, j, a, b)
    requires i < |kept| && j < |kept| && j != i && P[kept[i]] == P[kept[j]]
    requires s < |kept| - 1 && t < |kept| - 1 && s != t
    requires var r := Delete(kept, j); (r[s] == a || r[s] == b) && (r[t] == a || r[t] == b)
    ensures s >= i && t >= i && (s == i ==> t >= j + 1)
  {
    var s' := if s < j then s else s + 1;
    var t' := if t < j then t else t + 1;
    assert Delete(kept, j)[s] == kept[s'] && Delete(kept, j)[t] == kept[t'];
    assert s' >= i && t' >= i && (s' == i ==> t' >= j);
    if j < i {
      PairNotAtFront(P, kept, i, j, a, b);
    }
  }

  /** A slot before i sharing slot i's cell means slot i holds neither of the pair. */
  lemma PairNotAtFront(P: seq<Pos>, kept: seq<nat>, i: nat, j: nat, a: nat, b: nat)
    requires Indices(kept, |P|) && a < |P| && b < |P| && P[a] == P[b]
    requires OnlyPairShares(P, kept, a, b) && PairInv(P, kept, i, j, a, b)
    requires i < |kept| && j < i && P[kept[i]] == P[kept[j]]
    ensures kept[i] != a && kept[i] != b
  {
    assert !((kept[j] == a || kept[j] == b) && (kept[i] == a || kept[i] == b));
    assert P[kept[j]] == P[a] ==> kept[j] == a || kept[j] == b;
  }

  lemma {:induction false} PairOuter(P: seq<Pos>, kept: seq<nat>, i: nat, a: nat, b: nat)
    requires Indices(kept, |P|) && Increasing(kept) && a < |P| && b < |P| && a != b && P[a] == P[b]
    requires OnlyPairShares(P, kept, a, b) && PairInv(P, kept, i, 0, a, b)
    ensures (a in FixedOuter(P, kept, i)) != (b in FixedOuter(P, kept, i))
    decreases |kept|, |kept| - i, |kept| + 1, 0
  {
    if i >= |kept| {
      if a in kept {
        var s :| 0 <= s < |kept| && kept[s] == a;
        forall t | 0 <= t < |kept| ensures kept[t] != b {
        }
      }
    } else {
      PairInner(P, kept, i, 0, a, b);
    }
  }

  lemma {:induction false} PairInner(P: seq<Pos>, kept: seq<nat>, i: nat, j: nat, a: nat, b: nat)
    requires Indices(kept, |P|) && Increasing(kept) && i <= |kept|
    requires a < |P| && b < |P| && a != b && P[a] == P[b]
    requires OnlyPairShares(P, kept, a, b) && PairInv(P, kept, i, j, a, b)
    ensures (a in FixedInner(P, kept, i, j)) != (b in FixedInner(P, kept, i, j))
    decreases |kept|, |kept| - i, |kept| - j, 1
  {
    if j >= |kept| || i >= |kept| {
      PairPassDone(P, kept, i, j, a, b);
      PairOuter(P, kept, i + 1, a, b);
    } else if j == i {
      PairInner(P, kept, i, j + 1, a, b);
    } else if P[kept[i]] == P[kept[j]] {
      PairInnerDelete(P, kept, i, j, a, b);
    } else {
      PairSkipStep(P, kept, i, j, a, b);
      PairInner(P, kept, i, j + 1, a, b);
    }
  }

  /** The inner step that deletes slot j. */
  lemma {:induction false} PairInnerDelete(P: seq<Pos>, kept: seq<nat>, i: nat, j: nat, a: nat, b: nat)
    requires Indices(kept, |P|) && Increasing(kept) && i < |kept| && j < |kept| && j != i
    requires a < |P| && b < |P| && a != b && P[a] == P[b] && P[kept[i]] == P[kept[j]]
    requires OnlyPairShares(P, kept, a, b) && PairInv(P, kept, i, j, a, b)
    ensures (a in FixedInner(P, kept, i, j)) != (b in FixedInner(P, kept, i, j))
    decreases |kept|, |kept| - i, |kept| - j, 0
  {
    PairDeleteStep(P, kept, i, j, a, b);
    DeletePreservesOnlyPair(P, kept, j, a, b);
    DeleteKeepsIndices(kept, |P|, j);
    PairInner(P, Delete(kept, j), i, j + 1, a, b);
  }

  /** Once the inner loop is past the end, the pair sits after slot i. */
  lemma PairPassDone(P: seq<Pos>, kept: seq<nat>, i: nat, j: nat, a: nat, b: nat)
    requires Indices(kept, |P|) && PairInv(P, kept, i, j, a, b) && (j >= |kept| || i >= |kept|)
    ensures PairInv(P, kept, i + 1, 0, a, b)
  {
    forall s, t | 0 <= s < |kept| && 0 <= t < |kept| && s != t &&
                  (kept[s] == a || kept[s] == b) && (kept[t] == a || kept[t] == b)
      ensures s >= i + 1 && t >= i + 1
    {
      assert s >= i && t >= i;
      assert (s == i ==> t >= j) && (t == i ==> s >= j);
    }
  }

  /** An inner step that keeps slot j, on another cell than slot i, keeps the invariant. */
  lemma PairSkipStep(P: seq<Pos>, kept: seq<nat>, i: nat, j: nat, a: nat, b: nat)
    requires Indices(kept, |P|) && a < |P| && b < |P| && P[a] == P[b]
    requires PairInv(P, kept, i, j, a, b)
    requires i < |kept| && j < |kept| && j != i && P[kept[i]] != P[kept[j]]
    ensures PairInv(P, kept, i, j + 1, a, b)
  {
    forall s, t | 0 <= s < |kept| && 0 <= t < |kept| && s != t &&
                  (kept[s] == a || kept[s] == b) && (kept[t] == a || kept[t] == b) && s == i
      ensures t >= j + 1
    {
      assert t >= j;
      assert P[kept[t]] == P[kept[s]];
    }
  }

  /** When exactly two entries share a cell, the merge keeps exactly one of
      them. */
  lemma DedupLeavesOneOfAPair(P: seq<Pos>, a: nat, b: nat)
    requires a < |P| && b < |P| && a != b && P[a] == P[b]
    requires forall k :: 0 <= k < |P| && P[k] == P[a] ==> k == a || k == b
    ensures (a in Dedup(P)) != (b in Dedup(P))
  {
    var all := Range(|P|);
    assert all[a] == a;
    PairOuter(P, all, 0, a, b);
  }

  /** Five white mummies on one cell: the pass for i = 0 deletes slots 1 and
      2 (the entry moved into slot 2 is skipped), the pass for i = 1 deletes
      slot 0, and two of them survive. */
  lemma DedupFiveLeavesTwo()
    ensures Dedup([(3, 3), (3, 3), (3, 3), (3, 3), (3, 3)]) == [2, 4]
  {
    var P: seq<Pos> := [(3, 3), (3, 3), (3, 3), (3, 3), (3, 3)];
    assert Range(5) == [0, 1, 2, 3, 4];
    assert Delete([0, 1, 2, 3, 4], 1) == [0, 2, 3, 4];
    assert Delete([0, 2, 3, 4], 2) == [0, 2, 4];
    assert Delete([0, 2, 4], 0) == [2, 4];
  }

  lemma PickRange<T>(xs: seq<T>)
    ensures Indices(Range(|xs|), |xs|) && Pick(xs, Range(|xs|)) == xs
  {
  }

  /** The lists chars', sheets' and cells' are chars, sheets and cells at
      the indices kept. */
  ghost predicate Picked<S>(chars: seq<Enemy>, sheets: seq<S>, cells: seq<Pos>, kept: seq<nat>,
                            chars': seq<Enemy>, sheets': seq<S>, cells': seq<Pos>)
  {
    |sheets| == |chars| && |cells| == |chars| && Indices(kept, |chars|) &&
    chars' == Pick(chars, kept) && sheets' == Pick(sheets, kept) && cells' == Pick(cells, kept)
  }

  /** `update_list_character`, with the inner loop also stopping once i is
      past the end of the shrunk list (where the source raises). The cells
      of the list come alongside it and are deleted with it: no character
      moves during a merge, so they are the cells the source reads. */
  method UpdateListCharacter<S>(chars: seq<Enemy>, sheets: seq<S>, cells: seq<Pos>)
    returns (chars': seq<Enemy>, sheets': seq<S>, cells': seq<Pos>)
    requires |sheets| == |chars| && |cells| == |chars|
    ensures chars' == Pick(chars, Dedup(cells))
    ensures sheets' == Pick(sheets, Dedup(cells))
    ensures cells' == Pick(cells, Dedup(cells))
  {
    ghost var kept := Range(|chars|);
    PickRange(chars);
    PickRange(sheets);
    PickRange(cells);
    chars', sheets', cells' := chars, sheets, cells;
    var i := 0;
    while i < |chars'|
      invariant Picked(chars, sheets, cells, kept, chars', sheets', cells')
      invariant FixedOuter(cells, kept, i) == Dedup(cells)
      decreases |kept|, |kept| - i
    {
      chars', sheets', cells', kept := DedupPass(chars, sheets, cells, chars', sheets', cells', i, kept);
      i := i + 1;
    }
  }

  /** Deduplication keeps some of the entries, in order, and still covers
      every cell the list covered. */
  lemma DedupKeepsCellSet(P: seq<Pos>)
    ensures Indices(Dedup(P), |P|) && Increasing(Dedup(P))
    ensures CellSet(Pick(P, Dedup(P))) == CellSet(P)
  {
    var k := Dedup(P);
    DedupKeepsEveryCell(P);
    CellsIsCellSet(P, k);
    CellsIsCellSet(P, Range(|P|));
    PickRange(P);
  }

  /** One pass of the inner loop of `update_list_character` for slot i. */
  method DedupPass<S>(chars: seq<Enemy>, sheets: seq<S>, cells: seq<Pos>,
                      L: seq<Enemy>, Sh: seq<S>, C: seq<Pos>, i: nat, ghost kept: seq<nat>)
    returns (L': seq<Enemy>, Sh': seq<S>, C': seq<Pos>, ghost kept': seq<nat>)
    requires Picked(chars, sheets, cells, kept, L, Sh, C) && i < |L|
    ensures Picked(chars, sheets, cells, kept', L', Sh', C') && |kept'| <= |kept|
    ensures FixedOuter(cells, kept', i + 1) == FixedInner(cells, kept, i, 0)
  {
    L', Sh', C', kept' := L, Sh, C, kept;
    var j := 0;
    while j < |L'| && i < |L'|
      invariant Picked(chars, sheets, cells, kept', L', Sh', C') && i <= |kept'| <= |kept|
      invariant FixedInner(cells, kept', i, j) == FixedInner(cells, kept, i, 0)
      decreases |kept'|, |kept'| - j
    {
      if j != i && C'[i] == C'[j] {
        PickDelete(chars, kept', j);
        PickDelete(sheets, kept', j);
        PickDelete(cells, kept', j);
        L' := Delete(L', j);
        Sh' := Delete(Sh', j);
        C' := Delete(C', j);
        kept' := Delete(kept', j);
      }
      j := j + 1;
    }
  }

  // ---------------------------------------------------------------------
  // update_lists_character

  /** The outer `for i in range(len(list_strong))` of
      `update_lists_character`, on the cells S of the strong list and W of
      the weak list, and the original weak indices still kept. */
  function MergeOuter(S: seq<Pos>, W: seq<Pos>, kept: seq<nat>, i: nat): (r: seq<nat>)
    requires Indices(kept, |W|)
    ensures Indices(r, |W|)
    decreases |S| - i, |kept| + 1
  {
    if i >= |S| then kept else MergeInner(S, W, kept, i, 0)
  }

  /** The inner `while j < len(list_weak)`: as in the within-kind merge, the
      weak entry moved into slot j by a deletion is not compared. */
  function MergeInner(S: seq<Pos>, W: seq<Pos>, kept: seq<nat>, i: nat, j: nat): (r: seq<nat>)
    requires Indices(kept, |W|) && i < |S|
    ensures Indices(r, |W|)
    decreases |S| - i, |kept| - j
  {
    if j >= |kept| then MergeOuter(S, W, kept, i + 1)
    else if S[i] == W[kept[j]] then MergeInner(S, W, Delete(kept, j), i, j + 1)
    else MergeInner(S, W, kept, i, j + 1)
  }

  lemma {:induction false} MergeOuterKeeps(S: seq<Pos>, W: seq<Pos>, kept: seq<nat>, i: nat)
    requires Indices(kept, |W|) && Increasing(kept)
    ensures Indices(MergeOuter(S, W, kept, i), |W|)
    ensures SubsequenceOf(MergeOuter(S, W, kept, i), kept)
    ensures forall t :: 0 <= t < |kept| && kept[t] !in MergeOuter(S, W, kept, i) ==> W[kept[t]] in S
    decreases |S| - i, |kept| + 1
  {
    if i < |S| {
      MergeInnerKeeps(S, W, kept, i, 0);
    }
  }

  lemma {:induction false} MergeInnerKeeps(S: seq<Pos>, W: seq<Pos>, kept: seq<nat>, i: nat, j: nat)
    requires Indices(kept, |W|) && Increasing(kept) && i < |S|
    ensures Indices(MergeInner(S, W, kept, i, j), |W|)
    ensures SubsequenceOf(MergeInner(S, W, kept, i, j), kept)
    ensures forall t :: 0 <= t < |kept| && kept[t] !in MergeInner(S, W, kept, i, j) ==> W[kept[t]] in S
    decreases |S| - i, |kept| - j
  {
    if j >= |kept| {
      MergeOuterKeeps(S, W, kept, i + 1);
    } else if S[i] == W[kept[j]] {
      var k' := Delete(kept, j);
      DeleteKeepsIndices(kept, |W|, j);
      MergeInnerKeeps(S, W, k', i, j + 1);
      var r := MergeInner(S, W, k', i, j + 1);
      SubsequenceOfDelete(r, kept, j);
      forall t | 0 <= t < |kept| && kept[t] !in r ensures W[kept[t]] in S {
        if t != j {
          assert k'[if t < j then t else t - 1] == kept[t];
        }
      }
    } else {
      MergeInnerKeeps(S, W, kept, i, j + 1);
    }
  }

  /** The surviving original indices of the weak list. */
  function Merge(S: seq<Pos>, W: seq<Pos>): (r: seq<nat>)
    ensures Indices(r, |W|)
  {
    MergeOuterKeeps(S, W, Range(|W|), 0);
    MergeOuter(S, W, Range(|W|), 0)
  }

  /** The cross-kind merge keeps a subsequence of the weak list and removes
      only weak entries that stand on the cell of some strong entry. */
  lemma MergeRemovesOnlyStrongCells(S: seq<Pos>, W: seq<Pos>)
    ensures Increasing(Merge(S, W))
    ensures forall k :: 0 <= k < |W| && k !in Merge(S, W) ==> W[k] in S
  {
    var all := Range(|W|);
    MergeOuterKeeps(S, W, all, 0);
    forall k | 0 <= k < |W| && k !in Merge(S, W) ensures W[k] in S {
      assert all[k] == k;
    }
  }

  /** No two kept entries stand on one cell. */
  predicate DistinctCells(W: seq<Pos>, kept: seq<nat>)
    requires Indices(kept, |W|)
  {
    forall s, t :: 0 <= s < t < |kept| ==> W[kept[s]] != W[kept[t]]
  }

  lemma DeleteKeepsDistinct(W: seq<Pos>, kept: seq<nat>, j: int)
    requires Indices(kept, |W|) && 0 <= j < |kept| && DistinctCells(W, kept)
    ensures Indices(Delete(kept, j), |W|) && DistinctCells(W, Delete(kept, j))
  {
    var r := Delete(kept, j);
    forall s, t | 0 <= s < t < |r| ensures W[r[s]] != W[r[t]] {
      assert r[s] == kept[if s < j then s else s + 1];
      assert r[t] == kept[if t < j then t else t + 1];
    }
  }

  /** Kept entries before slot j are off S[i], and every kept entry is off
      the strong cells already processed. */
  predicate MergedUpTo(S: seq<Pos>, W: seq<Pos>, kept: seq<nat>, i: nat, j: nat)
    requires Indices(kept, |W|) && i <= |S|
  {
    (forall t :: 0 <= t < |kept| ==> W[kept[t]] !in S[..i]) &&
    (i < |S| ==> forall t :: 0 <= t < j && t < |kept| ==> W[kept[t]] != S[i])
  }

  lemma {:induction false} MergeOuterClears(S: seq<Pos>, W: seq<Pos>, kept: seq<nat>, i: nat)
    requires Indices(kept, |W|) && DistinctCells(W, kept) && i <= |S| && MergedUpTo(S, W, kept, i, 0)
    ensures forall u :: 0 <= u < |MergeOuter(S, W, kept, i)| ==> W[MergeOuter(S, W, kept, i)[u]] !in S
    decreases |S| - i, |kept| + 1
  {
    if i < |S| {
      MergeInnerClears(S, W, kept, i, 0);
    } else {
      assert S[..i] == S;
    }
  }

  lemma {:induction false} MergeInnerClears(S: seq<Pos>, W: seq<Pos>, kept: seq<nat>, i: nat, j: nat)
    requires Indices(kept, |W|) && DistinctCells(W, kept) && i < |S| && MergedUpTo(S, W, kept, i, j)
    ensures forall u :: 0 <= u < |MergeInner(S, W, kept, i, j)| ==> W[MergeInner(S, W, kept, i, j)[u]] !in S
    decreases |S| - i, |kept| - j
  {
    if j >= |kept| {
      assert S[..i + 1] == S[..i] + [S[i]];
      MergeOuterClears(S, W, kept, i + 1);
    } else if S[i] == W[kept[j]] {
      var k' := Delete(kept, j);
      DeleteKeepsDistinct(W, kept, j);
      assert MergedUpTo(S, W, k', i, j + 1) by {
        forall t | 0 <= t < |k'| ensures W[k'[t]] !in S[..i] {
          assert k'[t] == kept[if t < j then t else t + 1];
        }
        forall t | 0 <= t < j + 1 && t < |k'| ensures W[k'[t]] != S[i] {
          if t == j {
            assert k'[t] == kept[j + 1];
          }
        }
      }
      MergeInnerClears(S, W, k', i, j + 1);
    } else {
      MergeInnerClears(S, W, kept, i, j + 1);
    }
  }

  /** With no two weak entries on one cell, the merge keeps exactly the weak
      entries that stand on no strong entry's cell. */
  lemma MergeOfDistinctRemovesAllOnStrongCells(S: seq<Pos>, W: seq<Pos>)
    requires forall a, b :: 0 <= a < b < |W| ==> W[a] != W[b]
    ensures forall k :: 0 <= k < |W| ==> (k in Merge(S, W) <==> W[k] !in S)
  {
    var all := Range(|W|);
    MergeRemovesOnlyStrongCells(S, W);
    MergeOuterClears(S, W, all, 0);
    forall k | 0 <= k < |W| && k in Merge(S, W) ensures W[k] !in S {
      var u :| 0 <= u < |Merge(S, W)| && Merge(S, W)[u] == k;
    }
  }

  /** Two white scorpions on a white mummy's cell: the first is deleted, the
      second moves into its slot and is skipped, so one survives. */
  lemma MergeSkipsSecondOnSameCell()
    ensures Merge([(5, 5)], [(5, 5), (5, 5)]) == [1]
  {
    assert Range(2) == [0, 1];
    assert Delete([0, 1], 0) == [1];
  }

  /** `update_lists_character`: the strong list is only read, and then
      only for its cells S; the weak list's cells W are deleted with it. */
  method UpdateListsCharacter<T>(S: seq<Pos>, weak: seq<Enemy>, sheets: seq<T>, W: seq<Pos>)
    returns (weak': seq<Enemy>, sheets': seq<T>, W': seq<Pos>)
    requires |sheets| == |weak| && |W| == |weak|
    ensures weak' == Pick(weak, Merge(S, W))
    ensures sheets' == Pick(sheets, Merge(S, W))
    ensures W' == Pick(W, Merge(S, W))
  {
    ghost var kept := Range(|weak|);
    PickRange(weak);
    PickRange(sheets);
    PickRange(W);
    weak', sheets', W' := weak, sheets, W;
    for i := 0 to |S|
      invariant Picked(weak, sheets, W, kept, weak', sheets', W')
      invariant MergeOuter(S, W, kept, i) == Merge(S, W)
    {
      weak', sheets', W', kept := MergePass(S, weak, sheets, W, weak', sheets', W', i, kept);
    }
  }

  /** A cross-kind merge keeps some of the weak entries, in order, and frees
      no cell: a weak entry only goes where a strong one stands. */
  lemma MergeKeepsCellSet(S: seq<Pos>, W: seq<Pos>)
    ensures Indices(Merge(S, W), |W|) && Increasing(Merge(S, W))
    ensures CellSet(S) + CellSet(Pick(W, Merge(S, W))) == CellSet(S) + CellSet(W)
  {
    MergeRemovesOnlyStrongCells(S, W);
    PickCellsWithin(W, Merge(S, W));
    MergeCoversWeak(S, W);
  }

  lemma PickCellsWithin(W: seq<Pos>, k: seq<nat>)
    requires Indices(k, |W|)
    ensures CellSet(Pick(W, k)) <= CellSet(W)
  {
    var kept := Pick(W, k);
    forall p | p in CellSet(kept) ensures p in CellSet(W) {
      var u :| 0 <= u < |kept| && kept[u] == p;
      assert W[k[u]] == p;
    }
  }

  lemma MergeCoversWeak(S: seq<Pos>, W: seq<Pos>)
    ensures CellSet(W) <= CellSet(S) + CellSet(Pick(W, Merge(S, W)))
  {
    var k := Merge(S, W);
    MergeRemovesOnlyStrongCells(S, W);
    var kept := Pick(W, k);
    forall p | p in CellSet(W) ensures p in CellSet(S) + CellSet(kept) {
      var t :| 0 <= t < |W| && W[t] == p;
      if t in k {
        var u :| 0 <= u < |k| && k[u] == t;
        assert kept[u] == p;
      } else {
        assert p in S;
      }
    }
  }

  /** One pass of the inner loop of `update_lists_character` for strong slot i. */
  method MergePass<T>(S: seq<Pos>, weak: seq<Enemy>, sheets: seq<T>, W: seq<Pos>,
                      L: seq<Enemy>, Sh: seq<T>, C: seq<Pos>, i: nat, ghost kept: seq<nat>)
    returns (L': seq<Enemy>, Sh': seq<T>, C': seq<Pos>, ghost kept': seq<nat>)
    requires i < |S| && Picked(weak, sheets, W, kept, L, Sh, C)
    ensures Picked(weak, sheets, W, kept', L', Sh', C')
    ensures MergeOuter(S, W, kept', i + 1) == MergeInner(S, W, kept, i, 0)
  {
    L', Sh', C', kept' := L, Sh, C, kept;
    var j := 0;
    while j < |L'|
      invariant Picked(weak, sheets, W, kept', L', Sh', C')
      invariant MergeInner(S, W, kept', i, j) == MergeInner(S, W, kept, i, 0)
      decreases |kept'| - j
    {
      if S[i] == C'[j] {
        PickDelete(weak, kept', j);
        PickDelete(sheets, kept', j);
        PickDelete(W, kept', j);
        L' := Delete(L', j);
        Sh' := Delete(Sh', j);
        C' := Delete(C', j);
        kept' := Delete(kept', j);
      }
      j := j + 1;
    }
  }
}
