/** Facts about sets and sequences that several modules need. */
module Collections {

  function SetOf<T(==, !new)>(list: seq<T>): (s: set<T>)
    ensures forall x :: x in s <==> x in list
  {
    set x | x in list
  }

  lemma {:induction false} SetOfSize<T(!new)>(list: seq<T>)
    ensures |SetOf(list)| <= |list|
  {
    if list == [] {
      assert SetOf(list) == {};
    } else {
      var n := |list| - 1;
      SetOfSize(list[..n]);
      assert list == list[..n] + [list[n]];
      assert SetOf(list) == SetOf(list[..n]) + {list[n]};
    }
  }

  lemma {:induction false} SubsetSize<T>(small: set<T>, big: set<T>)
    requires small <= big
    ensures |small| <= |big|
    ensures |small| == |big| ==> small == big
    decreases big
  {
    if small != {} {
      var x :| x in small;
      SubsetSize(small - {x}, big - {x});
      assert small == (small - {x}) + {x} && big == (big - {x}) + {x};
    }
  }

  function Min(a: nat, b: nat): nat {
    if a < b then a else b
  }

  /** If every step from a good state ends in a good one exactly when it is clean, then all states are good
      exactly when all steps are clean. */
  lemma {:induction false} AllAlong(good: seq<bool>, clean: seq<bool>)
    requires |good| == |clean| + 1 && good[0]
    requires forall i | 0 <= i < |clean| && good[i] :: good[i + 1] == clean[i]
    ensures (forall i | 0 <= i < |good| :: good[i]) <==> (forall i | 0 <= i < |clean| :: clean[i])
  {
    if clean != [] {
      var n := |clean| - 1;
      var front, steps := good[..n + 1], clean[..n];
      forall i | 0 <= i < n && front[i] ensures front[i + 1] == steps[i] {
        assert good[i] && good[i + 1] == clean[i];
      }
      AllAlong(front, steps);
      if forall i | 0 <= i < |clean| :: clean[i] {
        assert forall i | 0 <= i < n :: steps[i];
        forall i | 0 <= i < |good| ensures good[i] {
          assert front[n] == good[n] && good[n + 1] == clean[n];
          if i <= n {
            assert good[i] == front[i];
          }
        }
      } else if forall i | 0 <= i < |good| :: good[i] {
        forall i | 0 <= i < |clean| ensures clean[i] {
          assert good[i] && good[i + 1] == clean[i];
        }
      }
    }
  }
}
