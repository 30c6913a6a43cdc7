/** What the code does with vectors (External/sb/vector.h). */
module Vectors {

  /** Removes an element by moving the last one into its place. */
  function RemoveIndexQuick<T>(q: seq<T>, index: nat): (r: seq<T>)
    requires index < |q|
    ensures |r| == |q| - 1
  {
    q[index := q[|q| - 1]][..|q| - 1]
  }

  /** The positions at which flags are set, in order. */
  ghost predicate SetAt(at: seq<nat>, flags: seq<bool>) {
    && (forall i, j :: 0 <= i < j < |at| ==> at[i] < at[j])
    && forall k: nat :: k in at <==> k < |flags| && flags[k]
  }

  lemma NoneSet()
    ensures SetAt([], [])
  {
  }

  lemma SetAtSnoc(at: seq<nat>, flags: seq<bool>, flag: bool)
    requires SetAt(at, flags)
    ensures SetAt(if flag then at + [|flags|] else at, flags + [flag])
  {
    forall i | 0 <= i < |at| ensures at[i] < |flags| {
      assert at[i] in at;
    }
    var longer := if flag then at + [|flags|] else at;
    forall k: nat ensures k in longer <==> k < |flags| + 1 && (flags + [flag])[k] {
      assert k in longer <==> k in at || (flag && k == |flags|);
    }
  }

  /** The elements at some positions. */
  function Picked<T>(s: seq<T>, at: seq<nat>): (r: seq<T>)
    requires forall j :: 0 <= j < |at| ==> at[j] < |s|
    ensures |r| == |at| && forall j :: 0 <= j < |at| ==> r[j] == s[at[j]]
  {
    seq(|at|, j requires 0 <= j < |at| => s[at[j]])
  }

  lemma PickedSnoc<T>(s: seq<T>, at: seq<nat>, flags: seq<bool>, flag: bool)
    requires s != [] && |flags| == |s| - 1 && SetAt(at, flags)
    ensures var longer, n := if flag then at + [|flags|] else at, |s| - 1;
      && (forall j :: 0 <= j < |at| ==> at[j] < n) && (forall j :: 0 <= j < |longer| ==> longer[j] < |s|)
      && SetAt(longer, flags + [flag])
      && Picked(s, longer) == Picked(s[..n], at) + if flag then [s[n]] else []
  {
    SetAtInside(at, flags);
    SetAtSnoc(at, flags, flag);
    hide SetAt;
  }

  lemma SetAtInside(at: seq<nat>, flags: seq<bool>)
    requires SetAt(at, flags)
    ensures forall j :: 0 <= j < |at| ==> at[j] < |flags| && flags[at[j]]
  {
    forall j | 0 <= j < |at| ensures at[j] < |flags| && flags[at[j]] {
      assert at[j] in at;
    }
  }
}
