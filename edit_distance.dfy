/** Levenshtein edit distance: the least number of single-character
    insertions, deletions and substitutions turning one string into another.
    `Dist` is the one definition the whole model uses: it stands for the
    `Levenshtein.distance` library call of script.py, and the two hand-written
    dynamic programmes (back.js, scritp.py) are proved equal to it. */
module EditDistance {

  function Min(x: nat, y: nat): nat {
    if x <= y then x else y
  }

  function Min3(x: nat, y: nat, z: nat): nat {
    Min(Min(x, y), z)
  }

  /** Cost of matching the last characters: 0 when equal, 1 for a substitution. */
  function Cost(x: char, y: char): nat {
    if x == y then 0 else 1
  }

  /** Distance by recursion on prefixes: drop the last character of both
      (match or substitute), of `a` only (delete), or of `b` only (insert). */
  function Dist(a: string, b: string): nat
    decreases |a| + |b|
  {
    if |a| == 0 then |b|
    else if |b| == 0 then |a|
    else Min3(Dist(a[..|a| - 1], b[..|b| - 1]) + Cost(a[|a| - 1], b[|b| - 1]),
              Dist(a[..|a| - 1], b) + 1,
              Dist(a, b[..|b| - 1]) + 1)
  }

  /** One unfolding of `Dist` on two non-empty strings, with the three
      candidates named: the distance is the least of them. */
  lemma Unfold(a: string, b: string, diag: nat, del: nat, ins: nat)
    requires |a| > 0 && |b| > 0
    requires diag == Dist(a[..|a| - 1], b[..|b| - 1]) + Cost(a[|a| - 1], b[|b| - 1])
    requires del == Dist(a[..|a| - 1], b) + 1
    requires ins == Dist(a, b[..|b| - 1]) + 1
    ensures Dist(a, b) == Min3(diag, del, ins)
  {
  }

  /** The recurrence both dynamic programmes fill their tables with: from the
      distances of the three shorter prefix pairs, the diagonal one when the
      last characters agree, else one more than the least. */
  lemma Recurrence(x: string, y: string, diag: nat, left: nat, up: nat)
    requires |x| > 0 && |y| > 0
    requires diag == Dist(x[..|x| - 1], y[..|y| - 1])
    requires left == Dist(x, y[..|y| - 1])
    requires up == Dist(x[..|x| - 1], y)
    ensures Dist(x, y) == if x[|x| - 1] == y[|y| - 1] then diag else Min3(diag + 1, left + 1, up + 1)
  {
    if x[|x| - 1] == y[|y| - 1] {
      LastMatch(x, y);
    } else {
      Unfold(x, y, diag + 1, up + 1, left + 1);
    }
  }

  /** The distance is never smaller than the difference of the lengths. */
  lemma {:induction false} LengthGap(a: string, b: string)
    ensures Dist(a, b) >= |a| - |b| && Dist(a, b) >= |b| - |a|
    decreases |a| + |b|
  {
    if |a| > 0 && |b| > 0 {
      LengthGap(a[..|a| - 1], b[..|b| - 1]);
      LengthGap(a[..|a| - 1], b);
      LengthGap(a, b[..|b| - 1]);
    }
  }

  /** Deleting everything and inserting everything is always enough. */
  lemma {:induction false} LengthSum(a: string, b: string)
    ensures Dist(a, b) <= |a| + |b|
    decreases |a| + |b|
  {
    if |a| > 0 && |b| > 0 {
      LengthSum(a[..|a| - 1], b);
    }
  }

  lemma {:induction false} Symmetric(a: string, b: string)
    ensures Dist(a, b) == Dist(b, a)
    decreases |a| + |b|
  {
    if |a| > 0 && |b| > 0 {
      Symmetric(a[..|a| - 1], b[..|b| - 1]);
      Symmetric(a[..|a| - 1], b);
      Symmetric(a, b[..|b| - 1]);
    }
  }

  lemma {:induction false} SelfZero(a: string)
    ensures Dist(a, a) == 0
    decreases |a|
  {
    if |a| > 0 {
      SelfZero(a[..|a| - 1]);
    }
  }

  lemma {:induction false} ZeroOnlyIfEqual(a: string, b: string)
    requires Dist(a, b) == 0
    ensures a == b
    decreases |a| + |b|
  {
    if |a| > 0 && |b| > 0 {
      ZeroOnlyIfEqual(a[..|a| - 1], b[..|b| - 1]);
      assert a == a[..|a| - 1] + [a[|a| - 1]];
      assert b == b[..|b| - 1] + [b[|b| - 1]];
    }
  }

  /** The distance is zero exactly for equal strings. */
  lemma ZeroIffEqual(a: string, b: string)
    ensures Dist(a, b) == 0 <==> a == b
  {
    if a == b {
      SelfZero(a);
    } else if Dist(a, b) == 0 {
      ZeroOnlyIfEqual(a, b);
    }
  }

  /** The triangle inequality: going through `b` is never shorter. */
  lemma {:induction false} Triangle(a: string, b: string, c: string)
    ensures Dist(a, c) <= Dist(a, b) + Dist(b, c)
    decreases |a| + |b| + |c|
  {
    if |b| == 0 {
      LengthSum(a, c);
    } else if |a| == 0 {
      LengthGap(b, c);
    } else if |c| == 0 {
      LengthGap(a, b);
    } else {
      var a', b', c' := a[..|a| - 1], b[..|b| - 1], c[..|c| - 1];
      if Dist(a, b) == Dist(a', b) + 1 {
        Triangle(a', b, c);
      } else if Dist(b, c) == Dist(b, c') + 1 {
        Triangle(a, b, c');
      } else if Dist(a, b) == Dist(a, b') + 1 {
        if Dist(b, c) == Dist(b', c) + 1 {
          Triangle(a, b', c);
        } else {
          Triangle(a, b', c');
        }
      } else {
        if Dist(b, c) == Dist(b', c) + 1 {
          Triangle(a', b', c);
        } else {
          Triangle(a', b', c');
        }
      }
    }
  }

  /** When both strings end with the same character, matching it is optimal:
      the distance is that of the two prefixes. */
  lemma LastMatch(a: string, b: string)
    requires |a| > 0 && |b| > 0 && a[|a| - 1] == b[|b| - 1]
    ensures Dist(a, b) == Dist(a[..|a| - 1], b[..|b| - 1])
  {
    var a', b' := a[..|a| - 1], b[..|b| - 1];
    // dropping one character moves the distance by at most one
    SelfZero(a');
    SelfZero(b');
    assert Dist(a, a') <= 1;
    assert Dist(b, b') <= 1;
    Triangle(a', b, b');
    Triangle(a', a, b');
    Symmetric(a', a);
  }

  /** Pruning rule of the metric tree: when `w` lies within `m` of `q`, its
      distance to any `p` lies within `m` of the distance from `q` to `p`. */
  lemma Pruning(q: string, w: string, p: string, m: int)
    requires Dist(q, w) <= m
    ensures Dist(q, p) - m <= Dist(w, p) <= Dist(q, p) + m
  {
    Triangle(q, w, p);
    Triangle(w, q, p);
    Symmetric(q, w);
  }
}
