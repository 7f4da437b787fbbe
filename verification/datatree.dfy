/**
 * The output trees: an ordered multimap from a path to a branch (a list of
 * items), as Grasshopper's GH_Structure.  Only the three operations the
 * component uses are modelled: Append, PathExists (map membership) and
 * clearing an existing branch.
 */
module DataTree {

  type Tree<K, T> = map<K, seq<T>>

  /** The items on a path; a path that does not exist reads as an empty branch. */
  function Branch<K, T>(t: Tree<K, T>, k: K): seq<T> {
    if k in t then t[k] else []
  }

  /** Append one item to the branch at k, creating the branch if the path does not exist. */
  function Append<K, T>(t: Tree<K, T>, k: K, x: T): Tree<K, T> {
    t[k := Branch(t, k) + [x]]
  }

  /** Empty the branch at k if the path exists; the path itself stays. */
  function ClearBranch<K, T>(t: Tree<K, T>, k: K): Tree<K, T> {
    if k in t then t[k := []] else t
  }

  /** Append a list of items to the branch at k, one Append per item. */
  function AppendAll<K, T>(t: Tree<K, T>, k: K, xs: seq<T>): Tree<K, T> {
    if |xs| == 0 then t else t[k := Branch(t, k) + xs]
  }

  /** Clear the branch at k, then append xs to it. */
  function Refill<K, T>(t: Tree<K, T>, k: K, xs: seq<T>): Tree<K, T> {
    AppendAll(ClearBranch(t, k), k, xs)
  }

  /**
   * Appending creates the path if it is missing and puts the item at the end
   * of its branch; every other path keeps its branch.
   */
  lemma AppendPath<K, T>(t: Tree<K, T>, k: K, x: T)
    ensures k in Append(t, k, x) && Append(t, k, x)[k] == Branch(t, k) + [x]
    ensures Append(t, k, x) - {k} == t - {k}
  {
  }

  /** Clearing keeps the path and empties its branch; every other path keeps its branch. */
  lemma ClearBranchPath<K, T>(t: Tree<K, T>, k: K)
    ensures k in ClearBranch(t, k) <==> k in t
    ensures k in t ==> ClearBranch(t, k)[k] == []
    ensures ClearBranch(t, k) - {k} == t - {k}
  {
  }

  /**
   * Appending a list puts its items, in order, at the end of the branch at k;
   * an empty list changes nothing, and every other path keeps its branch.
   */
  lemma AppendAllPath<K, T>(t: Tree<K, T>, k: K, xs: seq<T>)
    ensures |xs| == 0 ==> AppendAll(t, k, xs) == t
    ensures |xs| > 0 ==> k in AppendAll(t, k, xs) && AppendAll(t, k, xs)[k] == Branch(t, k) + xs
    ensures AppendAll(t, k, xs) - {k} == t - {k}
  {
  }

  /** Appending a list and then one more item is appending the longer list. */
  lemma AppendAllThenAppend<K, T>(t: Tree<K, T>, k: K, xs: seq<T>, x: T)
    ensures AppendAll(t, k, xs + [x]) == Append(AppendAll(t, k, xs), k, x)
  {
    if |xs| > 0 {
      assert Branch(t, k) + (xs + [x]) == (Branch(t, k) + xs) + [x];
    } else {
      assert xs + [x] == [x];
    }
  }

  /**
   * Refilling is idempotent: refilling a branch with xs twice leaves exactly
   * what refilling it once leaves, and the branch then holds xs alone
   * whatever it held before.
   */
  lemma RefillTwice<K, T>(t: Tree<K, T>, k: K, xs: seq<T>)
    ensures Refill(Refill(t, k, xs), k, xs) == Refill(t, k, xs)
    ensures k in Refill(t, k, xs) <==> k in t || |xs| > 0
    ensures k in Refill(t, k, xs) ==> Refill(t, k, xs)[k] == xs
    ensures forall q :: q != k ==> (q in Refill(t, k, xs) <==> q in t)
    ensures forall q :: q != k && q in t ==> Refill(t, k, xs)[q] == t[q]
  {
    if k in t {
      assert [] + xs == xs;
    } else if |xs| > 0 {
      assert [] + xs == xs;
    }
  }
}
