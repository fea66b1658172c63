/**
 * Positions in the state stack, as values: which state stops a top-down
 * pass, and which states survive the removal of disposed ones.
 */
module StackOrder {

  /** The highest index whose flag is set, or -1 when none is. */
  function Highest(flags: seq<bool>): (r: int)
    ensures -1 <= r < |flags|
    ensures r >= 0 ==> flags[r]
    ensures forall j :: r < j < |flags| ==> !flags[j]
  {
    if |flags| == 0 then -1
    else if flags[|flags| - 1] then |flags| - 1
    else Highest(flags[..|flags| - 1])
  }

  /** The elements whose drop flag is clear, in their original order. */
  function Keep<T>(s: seq<T>, drop: seq<bool>): (r: seq<T>)
    requires |s| == |drop|
    ensures |r| <= |s|
    ensures forall x :: x in r ==> x in s
  {
    if |s| == 0 then []
    else (if drop[0] then [] else [s[0]]) + Keep(s[1..], drop[1..])
  }

  /** Removal distributes over concatenation. */
  lemma {:induction false} KeepAppend<T>(s: seq<T>, t: seq<T>, ds: seq<bool>, dt: seq<bool>)
    requires |s| == |ds| && |t| == |dt|
    ensures Keep(s + t, ds + dt) == Keep(s, ds) + Keep(t, dt)
  {
    if |s| == 0 {
      assert s + t == t && ds + dt == dt;
    } else {
      assert (s + t)[1..] == s[1..] + t && (ds + dt)[1..] == ds[1..] + dt;
      KeepAppend(s[1..], t, ds[1..], dt);
    }
  }

  /** An element survives exactly when some position holding it is not dropped. */
  lemma {:induction false} KeepMembers<T>(s: seq<T>, drop: seq<bool>, x: T)
    requires |s| == |drop|
    ensures x in Keep(s, drop) <==> exists j :: 0 <= j < |s| && s[j] == x && !drop[j]
  {
    if |s| > 0 {
      KeepMembers(s[1..], drop[1..], x);
      if x in Keep(s, drop) && !(!drop[0] && s[0] == x) {
        var j :| 0 <= j < |s| - 1 && s[1..][j] == x && !drop[1..][j];
        assert s[j + 1] == x && !drop[j + 1];
      }
      if exists j :: 0 <= j < |s| && s[j] == x && !drop[j] {
        var j :| 0 <= j < |s| && s[j] == x && !drop[j];
        if j > 0 {
          assert s[1..][j - 1] == x && !drop[1..][j - 1];
        }
      }
    }
  }

  /** Nothing dropped leaves the sequence as it is; everything dropped leaves nothing. */
  lemma {:induction false} KeepExtremes<T>(s: seq<T>, drop: seq<bool>)
    requires |s| == |drop|
    ensures (forall j :: 0 <= j < |drop| ==> !drop[j]) ==> Keep(s, drop) == s
    ensures (forall j :: 0 <= j < |drop| ==> drop[j]) ==> Keep(s, drop) == []
  {
    if |s| > 0 {
      KeepExtremes(s[1..], drop[1..]);
      assert [s[0]] + s[1..] == s;
    }
  }

  /** The outcome of a loop that may hit undefined behaviour. */
  datatype Outcome<T> = Undefined | Defined(value: T)

  /**
   * The removal loop as the manager writes it: an iterator walks the stack
   * from the bottom; at a disposed state it erases it, steps the returned
   * iterator back by one and then forward again. Stepping back from the first
   * position is undefined, so erasing the bottom state is.
   */
  function EraseLoopAsWritten<T>(s: seq<T>, drop: seq<bool>, it: nat): Outcome<seq<T>>
    requires |s| == |drop| && it <= |s|
    decreases |s| - it
  {
    if it == |s| then Defined(s)
    else if drop[it] then
      if it == 0 then Undefined
      else EraseLoopAsWritten(s[..it] + s[it + 1..], drop[..it] + drop[it + 1..], it)
    else EraseLoopAsWritten(s, drop, it + 1)
  }

  /** Past the bottom, the loop leaves what is below the iterator and removes the dropped ones above. */
  lemma {:induction false} EraseLoopAbove<T>(s: seq<T>, drop: seq<bool>, it: nat)
    requires |s| == |drop| && 0 < it <= |s|
    ensures EraseLoopAsWritten(s, drop, it) == Defined(s[..it] + Keep(s[it..], drop[it..]))
    decreases |s| - it
  {
    if it == |s| {
      assert s[..it] == s && s[it..] == [];
      assert Keep(s[it..], drop[it..]) == [];
      assert s[..it] + Keep(s[it..], drop[it..]) == s;
    } else if drop[it] {
      var s' := s[..it] + s[it + 1..];
      var d' := drop[..it] + drop[it + 1..];
      EraseLoopAbove(s', d', it);
      assert s'[..it] == s[..it];
      assert s'[it..] == s[it + 1..] && d'[it..] == drop[it + 1..];
      assert s[it..][1..] == s[it + 1..] && drop[it..][1..] == drop[it + 1..];
      assert Keep(s[it..], drop[it..]) == Keep(s[it + 1..], drop[it + 1..]);
    } else {
      EraseLoopAbove(s, drop, it + 1);
      assert s[..it + 1] == s[..it] + [s[it]];
      assert s[it..][1..] == s[it + 1..] && drop[it..][1..] == drop[it + 1..];
      assert Keep(s[it..], drop[it..]) == [s[it]] + Keep(s[it + 1..], drop[it + 1..]);
      assert EraseLoopAsWritten(s, drop, it) == EraseLoopAsWritten(s, drop, it + 1);
      assert s[..it + 1] + Keep(s[it + 1..], drop[it + 1..]) == s[..it] + ([s[it]] + Keep(s[it + 1..], drop[it + 1..]));
    }
  }

  /**
   * The loop as written is undefined exactly when the bottom state is
   * disposed; otherwise it removes precisely the disposed states.
   */
  lemma EraseLoopOutcome<T>(s: seq<T>, drop: seq<bool>)
    requires |s| == |drop|
    ensures EraseLoopAsWritten(s, drop, 0) ==
            if |s| > 0 && drop[0] then Undefined else Defined(Keep(s, drop))
  {
    if |s| > 0 && !drop[0] {
      EraseLoopAbove(s, drop, 1);
      assert s[..1] == [s[0]] && s[1..] == s[1..];
    }
  }

  /** For instance, a disposed state alone on the stack makes the loop undefined. */
  lemma EraseLoopCounterexample()
    ensures EraseLoopAsWritten([0], [true], 0) == Undefined
    ensures Keep([0], [true]) == []
  {
    KeepExtremes([0], [true]);
  }
}
