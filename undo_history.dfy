/**
 * The editor's undo machinery: `CustomStack<T>`, a bounded history list that
 * forgets its oldest entries, and `UndoAction`, the reversible command the
 * editor keeps in it.
 */
module UndoHistory {
  import opened Wrappers

  /** `List<T>.RemoveAt(i)`: the list without its element at position `i`. */
  function RemoveAt<T>(s: seq<T>, i: nat): (r: seq<T>)
    requires i < |s|
    ensures |r| == |s| - 1
    ensures forall j :: 0 <= j < |r| ==> r[j] == if j < i then s[j] else s[j + 1]
  {
    s[..i] + s[i + 1..]
  }

  /**
   * How many times the loop `for (i = maxItems; i < count; i++) Remove(0)`
   * runs when the list starts with `count` items: each round raises `i` and
   * lowers the count, so the loop stops at the first `k` with
   * `maxItems + k >= count - k`, not when the count has come down to `maxItems`.
   */
  function Evictions(count: int, maxItems: int): (k: nat)
    ensures count >= 0 && maxItems >= -count ==> k <= count
    ensures count >= 1 && maxItems >= 1 ==> k < count
    decreases count - maxItems
  {
    if maxItems < count then 1 + Evictions(count - 1, maxItems + 1) else 0
  }

  /** The loop stops at the first round where the raised `i` meets the lowered count. */
  lemma {:induction false} EvictionsStopAtFirst(count: int, maxItems: int)
    ensures var k := Evictions(count, maxItems);
      && maxItems + k >= count - k
      && (k > 0 ==> maxItems + (k - 1) < count - (k - 1))
    decreases count - maxItems
  {
    if maxItems < count {
      EvictionsStopAtFirst(count - 1, maxItems + 1);
    }
  }

  /** Over the bound, the loop runs for half the surplus, rounded up. */
  lemma {:induction false} EvictionsHalveSurplus(count: int, maxItems: int)
    ensures Evictions(count, maxItems) == if count > maxItems then (count - maxItems + 1) / 2 else 0
    decreases count - maxItems
  {
    if maxItems < count {
      EvictionsHalveSurplus(count - 1, maxItems + 1);
    }
  }

  /** The history list after `Push(x)` on the list `s`. */
  function Pushed<T>(s: seq<T>, maxItems: int, x: T): (r: seq<T>)
    requires maxItems >= -(|s| + 1)
    ensures |r| <= |s| + 1 && r == (s + [x])[|s| + 1 - |r|..]
    ensures maxItems >= 1 ==> |r| > 0 && r[|r| - 1] == x
  {
    (s + [x])[Evictions(|s| + 1, maxItems)..]
  }

  /** The `n` newest (last) elements of `t`, or all of them if there are fewer. */
  function Newest<T>(t: seq<T>, n: nat): (r: seq<T>)
    ensures |r| == if |t| < n then |t| else n
    ensures r == t[|t| - |r|..]
  {
    if |t| <= n then t else t[|t| - n..]
  }

  /**
   * Within the bound a push keeps the bound: below it nothing is evicted, at it
   * exactly the oldest entry goes, and a bound of zero keeps nothing at all.
   */
  lemma PushWithinBound<T>(s: seq<T>, maxItems: int, x: T)
    requires |s| <= maxItems
    ensures |Pushed(s, maxItems, x)| <= maxItems
    ensures |s| < maxItems ==> Pushed(s, maxItems, x) == s + [x]
    ensures 0 < |s| == maxItems ==> Pushed(s, maxItems, x) == s[1..] + [x]
    ensures maxItems == 0 ==> Pushed(s, maxItems, x) == []
  {
    if |s| < maxItems {
      assert Evictions(|s| + 1, maxItems) == 0;
      assert (s + [x])[0..] == s + [x];
    } else if maxItems == 0 {
      assert Evictions(1, 0) == 1;
    } else {
      assert Evictions(|s| + 1, maxItems) == 1;
      assert (s + [x])[1..] == s[1..] + [x];
    }
  }

  /**
   * When the list is more than one over the bound after the `Add` (the bound
   * was lowered), the loop removes only `ceil(d / 2)` of the `d` surplus
   * entries, and the list stays over the bound.
   */
  lemma PartialEviction<T>(s: seq<T>, maxItems: int, x: T)
    requires maxItems >= -(|s| + 1)
    requires |s| + 1 - maxItems >= 2
    ensures var d := |s| + 1 - maxItems;
      && |s| + 1 - |Pushed(s, maxItems, x)| == (d + 1) / 2
      && |Pushed(s, maxItems, x)| == maxItems + d / 2 > maxItems
  {
    EvictionsHalveSurplus(|s| + 1, maxItems);
  }

  /** Pushing onto the newest `maxItems` of `t` keeps the newest `maxItems` of `t + [x]`. */
  lemma PushKeepsNewest<T>(t: seq<T>, maxItems: nat, x: T)
    ensures Pushed(Newest(t, maxItems), maxItems, x) == Newest(t + [x], maxItems)
  {
    var s := Newest(t, maxItems);
    PushWithinBound(s, maxItems, x);
    if maxItems > 0 && |t| >= maxItems {
      assert s[1..] + [x] == (t + [x])[|t| + 1 - maxItems..];
    }
  }

  /** The same, for pushing the elements of `xs` in order. */
  lemma PushNextKeepsNewest<T>(xs: seq<T>, i: nat, maxItems: nat)
    requires i < |xs|
    ensures Pushed(Newest(xs[..i], maxItems), maxItems, xs[i]) == Newest(xs[..i + 1], maxItems)
  {
    calc {
      Pushed(Newest(xs[..i], maxItems), maxItems, xs[i]);
      { PushKeepsNewest(xs[..i], maxItems, xs[i]); }
      Newest(xs[..i] + [xs[i]], maxItems);
      { assert xs[..i] + [xs[i]] == xs[..i + 1]; }
      Newest(xs[..i + 1], maxItems);
    }
  }

  /** Removing the oldest of the newest entries leaves one entry fewer. */
  lemma RemoveOldest<T>(s: seq<T>, j: nat)
    requires j < |s|
    ensures RemoveAt(s[j..], 0) == s[j + 1..]
  {
    assert s[j..][1..] == s[j + 1..];
  }

  /** `CustomStack<T>`: a history list that never grows much beyond `maxItems`. */
  class CustomStack<T> {
    /** The stored items, oldest first. */
    var items: seq<T>
    /** `MaxItems`, a public field the editor may change at any time. */
    var maxItems: int

    constructor ()
      ensures items == [] && maxItems == 50
    {
      items := [];
      maxItems := 50;
    }

    /** `Count`. */
    function Count(): (n: nat)
      reads this
      ensures n == |items|
    {
      |items|
    }

    /** `Remove(index)`; an index outside the list throws in the source. */
    method Remove(index: int)
      requires 0 <= index < |items|
      modifies this
      ensures items == RemoveAt(old(items), index)
      ensures maxItems == old(maxItems)
    {
      items := RemoveAt(items, index);
    }

    /**
     * `Push(item)`: append, then run the eviction loop. The loop would call
     * `Remove(0)` on an empty list (and throw) exactly when `maxItems` is below
     * `-(Count + 1)`; the precondition keeps callers out of that case.
     */
    method Push(item: T)
      requires maxItems >= -(|items| + 1)
      modifies this
      ensures maxItems == old(maxItems)
      ensures items == Pushed(old(items), maxItems, item)
      ensures |old(items)| < maxItems ==> items == old(items) + [item]
    {
      items := items + [item];
      ghost var added, m := items, maxItems;
      ghost var k := Evictions(|added|, m);
      EvictionsStopAtFirst(|added|, m);
      if |items| > maxItems {
        var i := maxItems;
        while i < |items|
          invariant maxItems == m
          invariant 0 <= i - m <= k
          invariant items == added[i - m..]
          decreases |items| - i
        {
          RemoveOldest(added, i - m);
          Remove(0);
          i := i + 1;
        }
      }
    }

    /** `Pop()`: the newest item, removed; `None` (the source's `default(T)`) when empty. */
    method Pop() returns (r: Option<T>)
      modifies this
      ensures old(items) == [] ==> r == None && items == []
      ensures old(items) != [] ==>
        && r == Some(old(items)[|old(items)| - 1])
        && items == old(items)[..|old(items)| - 1]
      ensures maxItems == old(maxItems)
    {
      if |items| > 0 {
        var tmp := items[|items| - 1];
        items := RemoveAt(items, |items| - 1);
        return Some(tmp);
      } else {
        return None;
      }
    }

    /** `ToArray()`: a fresh array holding the items, oldest first. */
    method ToArray() returns (a: array<T>)
      ensures fresh(a) && a[..] == items
    {
      var s := items;
      a := new T[|s|](k requires 0 <= k < |s| => s[k]);
    }
  }

  /** `Push(x)` on a stack below its bound appends `x` and evicts nothing. */
  method PushBelowBound<T>(st: CustomStack<T>, x: T)
    requires |st.items| < st.maxItems
    modifies st
    ensures st.items == old(st.items) + [x] && st.maxItems == old(st.maxItems)
  {
    st.Push(x);
  }

  /** `Push(A); Push(B)` on a new stack: both are kept, oldest first. */
  method PushTwo<T>(a: T, b: T) returns (st: CustomStack<T>)
    ensures fresh(st) && st.items == [a, b] && st.maxItems == 50
  {
    st := new CustomStack<T>();
    PushBelowBound(st, a);
    PushBelowBound(st, b);
  }

  /** `Push(A); Push(B); Pop(); Pop(); Pop()` on a new stack yields B, A, then nothing. */
  method PushPopScenario<T>(a: T, b: T) returns (first: Option<T>, second: Option<T>, third: Option<T>)
    ensures first == Some(b) && second == Some(a) && third == None
  {
    var st := PushTwo(a, b);
    first := st.Pop();
    assert st.items == [a];
    second := st.Pop();
    third := st.Pop();
  }

  /**
   * Pushing `xs` one by one onto a new stack whose bound is set to `capacity`
   * leaves the newest `capacity` of them in push order.
   */
  method PushSequence<T>(xs: seq<T>, capacity: nat) returns (kept: seq<T>)
    ensures kept == Newest(xs, capacity)
  {
    var st := new CustomStack<T>();
    st.maxItems := capacity;
    var i := 0;
    while i < |xs|
      invariant 0 <= i <= |xs|
      invariant st.maxItems == capacity
      invariant st.items == Newest(xs[..i], capacity)
    {
      PushNextKeepsNewest(xs, i, capacity);
      st.Push(xs[i]);
      i := i + 1;
    }
    assert xs[..i] == xs;
    var a := st.ToArray();
    kept := a[..];
  }

  /** Sixty pushes into the default bound of 50 keep the last 50 pushed. */
  method KeepsLastFifty<T>(xs: seq<T>) returns (kept: seq<T>)
    requires |xs| == 60
    ensures kept == xs[10..]
  {
    kept := PushSequence(xs, 50);
  }

  /** A call of a foreign callback with its arguments. */
  datatype Invocation<A, F> = Invocation(action: F, args: A)

  /**
   * `UndoAction`: a name, the captured arguments and the callback that reverses
   * an action the editor has already performed. `A` stands for the `object[]`
   * arguments and `F` for the `Action<object[]>` delegate.
   */
  class UndoAction<A, F> {
    var actionName: string
    /** `Action`, null (`None`) unless a callback was bound. */
    var action: Option<F>
    /** `Args`, private in the source. */
    var args: A

    /** Binds the name, arguments and callback; the callback is not called. */
    constructor (name: string, args: A, act: Option<F>)
      ensures actionName == name && this.args == args && action == act
    {
      actionName := name;
      this.args := args;
      action := act;
    }

    /**
     * `Undo()`: calls the callback once with the captured arguments, returned
     * here as the invocation it performs. A null callback throws in the source.
     */
    method Undo() returns (call: Invocation<A, F>)
      requires action.Some?
      ensures call == Invocation(action.value, args)
    {
      call := Invocation(action.value, args);
    }

    /** `ToString()`: the action's name, as the history listing shows it. */
    function ToString(): (s: string)
      reads this
      ensures s == actionName
    {
      actionName
    }
  }
}
