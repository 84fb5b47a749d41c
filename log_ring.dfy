/** `logRing` (websocket_shell_service.go): a fixed-capacity history of recent output
    lines, overwriting the oldest, replayed to each newly connected WebSocket client. */
module LogHistory {
  import opened Wrappers

  /** Index `j` (with `j < 2n`) moved back into `[0, n)`: one step around a ring of `n` slots. */
  function Wrap(j: nat, n: nat): (k: nat)
    requires 0 < n && j < 2 * n
    ensures k < n
    ensures k == j || k == j - n
  {
    if j < n then j else j - n
  }

  /** The slots in the order `getAll` visits them: starting at the slot after `head`,
      once around the ring, ending at `head` itself. */
  function Rotated<T>(slots: seq<T>, head: nat): (r: seq<T>)
    requires head < |slots|
    ensures |r| == |slots|
  {
    seq(|slots|, i requires 0 <= i < |slots| => slots[Wrap(head + 1 + i, |slots|)])
  }

  /** The values of the filled slots, in order (`getAll` skips nil values). */
  function Present(xs: seq<Option<string>>): (r: seq<string>)
    ensures |r| <= |xs|
  {
    if |xs| == 0 then []
    else match xs[0]
      case None => Present(xs[1..])
      case Some(v) => [v] + Present(xs[1..])
  }

  function Vacant(n: nat): (r: seq<Option<string>>)
    ensures |r| == n
  {
    seq(n, _ => None)
  }

  function Filled(c: seq<string>): (r: seq<Option<string>>)
    ensures |r| == |c|
  {
    seq(|c|, i requires 0 <= i < |c| => Some(c[i]))
  }

  /** The last `min(|h|, n)` elements of `h`, oldest first: what a ring of capacity `n`
      holds after the strings `h` were added to it. */
  function LastN(h: seq<string>, n: nat): (r: seq<string>)
    ensures |r| == if |h| <= n then |h| else n
    ensures r == h[|h| - |r|..]
  {
    if |h| <= n then h else h[|h| - n..]
  }

  /** Adding one more string keeps the last `n` strings: it is appended, and the oldest is
      dropped once the ring is full. */
  lemma LastNAppend(h: seq<string>, s: string, n: nat)
    requires n > 0
    ensures LastN(h + [s], n) ==
              if |LastN(h, n)| < n then LastN(h, n) + [s] else LastN(h, n)[1..] + [s]
  {
    var old_ := LastN(h, n);
    var new_ := LastN(h + [s], n);
    if |h| < n {
      assert new_ == h + [s];
    } else {
      assert |new_| == n;
      forall i | 0 <= i < n ensures new_[i] == (old_[1..] + [s])[i] {
        if i < n - 1 {
          assert new_[i] == (h + [s])[|h| + 1 - n + i];
        }
      }
    }
  }

  /** Before the ring wraps, the window is everything added so far. */
  lemma LastNBeforeWrap(h: seq<string>, n: nat)
    requires |h| <= n
    ensures LastN(h, n) == h
  {
  }

  /** Overwriting the slot after `head` and advancing `head` onto it rotates the visiting
      order by one: the overwritten (oldest) slot leaves the front, the new value joins at
      the end. */
  lemma {:induction false} RotatedAdvance(slots: seq<Option<string>>, head: nat, x: Option<string>)
    requires head < |slots|
    ensures var h' := Wrap(head + 1, |slots|);
            Rotated(slots[h' := x], h') == Rotated(slots, head)[1..] + [x]
  {
    var n := |slots|;
    var h' := Wrap(head + 1, n);
    var a := Rotated(slots[h' := x], h');
    var b := Rotated(slots, head)[1..] + [x];
    forall i | 0 <= i < n ensures a[i] == b[i] {
      if i < n - 1 {
        assert Wrap(h' + 1 + i, n) == Wrap(head + 1 + (i + 1), n);
        assert Wrap(h' + 1 + i, n) != h';
      } else {
        assert Wrap(h' + 1 + i, n) == h';
      }
    }
  }

  lemma LayoutInitial(slots: seq<Option<string>>)
    requires |slots| > 0 && forall i :: 0 <= i < |slots| ==> slots[i] == None
    ensures Layout(slots, 0, [])
  {
    var n := |slots|;
    var r := Rotated(slots, 0);
    assert LastN([], n) == [];
    assert Vacant(n) + Filled([]) == Vacant(n);
    forall i | 0 <= i < n ensures r[i] == Vacant(n)[i] {
      assert r[i] == slots[Wrap(1 + i, n)];
    }
    assert r == Vacant(n);
  }

  /** One `add` preserves the layout, with `s` appended to the history. */
  lemma LayoutAdd(slots: seq<Option<string>>, head: nat, history: seq<string>, s: string)
    requires Layout(slots, head, history)
    ensures var h' := Wrap(head + 1, |slots|);
            Layout(slots[h' := Some(s)], h', history + [s])
  {
    var n := |slots|;
    var window := LastN(history, n);
    RotatedAdvance(slots, head, Some(s));
    LastNAppend(history, s, n);
    LayoutStep(window, s, n);
  }

  /** What `getAll` collects from a well-laid-out ring is the window of the last strings. */
  lemma LayoutPresent(slots: seq<Option<string>>, head: nat, history: seq<string>)
    requires Layout(slots, head, history)
    ensures Present(Rotated(slots, head)) == LastN(history, |slots|)
  {
    var window := LastN(history, |slots|);
    PresentOfLayout(|slots| - |window|, window);
  }

  /** One step of `getAll`'s walk: visiting the `i`-th node after `head` extends what was
      collected by that node's value, if it has one. */
  lemma CollectStep(slots: seq<Option<string>>, head: nat, i: nat)
    requires head < |slots| && i < |slots|
    ensures var v := slots[Wrap(head + 1 + i, |slots|)];
            Present(Rotated(slots, head)[..i + 1])
              == Present(Rotated(slots, head)[..i]) + (if v.Some? then [v.value] else [])
  {
    PresentPrefixStep(Rotated(slots, head), i);
  }

  lemma PresentPrefixStep(xs: seq<Option<string>>, i: nat)
    requires i < |xs|
    ensures Present(xs[..i + 1]) == Present(xs[..i]) + (if xs[i].Some? then [xs[i].value] else [])
  {
    assert xs[..i + 1] == xs[..i] + [xs[i]];
    PresentAppend(xs[..i], xs[i]);
  }

  /** Reading `k` vacant slots followed by the filled window yields the window. */
  lemma {:induction false} PresentOfLayout(k: nat, c: seq<string>)
    ensures Present(Vacant(k) + Filled(c)) == c
  {
    if k > 0 {
      assert (Vacant(k) + Filled(c))[1..] == Vacant(k - 1) + Filled(c);
      PresentOfLayout(k - 1, c);
    } else if |c| > 0 {
      assert (Vacant(0) + Filled(c))[1..] == Vacant(0) + Filled(c[1..]);
      PresentOfLayout(0, c[1..]);
    }
  }

  /** The ring layout after one `add`: the front slot leaves, `Some(s)` joins at the back,
      and the window moves as `LastNAppend` says. */
  lemma LayoutStep(window: seq<string>, s: string, n: nat)
    requires 0 < n && |window| <= n
    ensures var next := if |window| < n then window + [s] else window[1..] + [s];
            (Vacant(n - |window|) + Filled(window))[1..] + [Some(s)]
              == Vacant(n - |next|) + Filled(next)
  {
    var next := if |window| < n then window + [s] else window[1..] + [s];
    var a := (Vacant(n - |window|) + Filled(window))[1..] + [Some(s)];
    var b := Vacant(n - |next|) + Filled(next);
    assert |a| == |b|;
    forall i | 0 <= i < |a| ensures a[i] == b[i] {
      if i < n - |next| {
      } else if i < n - 1 {
        assert a[i] == Filled(window)[i + 1 - (n - |window|)];
      }
    }
  }

  lemma {:induction false} PresentAppend(xs: seq<Option<string>>, x: Option<string>)
    ensures Present(xs + [x]) == Present(xs) + (if x.Some? then [x.value] else [])
  {
    if |xs| > 0 {
      assert (xs + [x])[1..] == xs[1..] + [x];
      PresentAppend(xs[1..], x);
    }
  }

  /** How a ring's nodes hold the strings added to it: read from the node after `head`,
      the never-written nodes come first, then the last strings added, oldest first. */
  ghost predicate Layout(slots: seq<Option<string>>, head: nat, history: seq<string>)
  {
    && head < |slots|
    && var window := LastN(history, |slots|);
       Rotated(slots, head) == Vacant(|slots| - |window|) + Filled(window)
  }

  class LogRing {
    /** The ring's nodes; `None` is a node whose value was never set. */
    var slots: array<Option<string>>
    /** The node `lr.r` points at: the most recently written one. */
    var head: nat
    /** Every string added since the ring was created, oldest first. */
    ghost var History: seq<string>

    ghost predicate Valid()
      reads this, slots
    {
      && slots.Length > 0
      && head < slots.Length
      && Layout(slots[..], head, History)
    }

    /** `newLogRing`: `ring.New(n)` allocates `n` empty nodes. A size of zero gives a nil
        ring on which `add` and `getAll` dereference nil, so the size must be positive. */
    constructor (logBufferSize: nat)
      requires logBufferSize > 0
      ensures Valid() && fresh(slots)
      ensures slots.Length == logBufferSize && History == []
    {
      slots := new Option<string>[logBufferSize](_ => None);
      head := 0;
      History := [];
      new;
      LayoutInitial(slots[..]);
    }

    /** `add`: step to the next node and store `s` there. */
    method Add(s: string)
      requires Valid()
      modifies this, slots
      ensures Valid() && slots == old(slots)
      ensures History == old(History) + [s]
    {
      ghost var before := slots[..];
      var next := Wrap(head + 1, slots.Length);
      LayoutAdd(before, head, History, s);
      slots[next] := Some(s);
      assert slots[..] == before[next := Some(s)];
      head := next;
      History := History + [s];
    }

    /** `getAll`: visit every node once, starting after the newest, and collect the values
        of the nodes that were ever written. The result is the last `min(k, N)` strings
        added, oldest first; the ring is left as it was. */
    method GetAll() returns (result: seq<string>)
      requires Valid()
      ensures result == LastN(History, slots.Length)
    {
      result := Walk();
      LayoutPresent(slots[..], head, History);
    }

    /** The walk of `getAll`, once around the ring from the node after `head`. */
    method Walk() returns (result: seq<string>)
      requires head < slots.Length
      ensures result == Present(Rotated(slots[..], head))
    {
      result := [];
      var n := slots.Length;
      ghost var nodes := slots[..];
      ghost var order := Rotated(nodes, head);
      var i := 0;
      while i < n
        invariant 0 <= i <= n
        invariant result == Present(order[..i])
      {
        var next := Wrap(head + 1 + i, n);
        var v := slots[next];
        assert v == nodes[next];
        CollectStep(nodes, head, i);
        if v.Some? {
          result := result + [v.value];
        }
        i := i + 1;
      }
      assert order[..n] == order;
    }
  }
}
