/** Preconditioned conjugate gradients as mathematics: the iterates of
    elements-ember's `kernels/mgpcg.rs`, guards included, and what they satisfy. */
module ConjugateGradients {
  import opened Values
  import opened Vectors
  import opened Kernels

  ghost predicate Maps(n: nat, f: Vec -> Vec) {
    forall u: Vec :: |u| == n ==> |f(u)| == n
  }

  ghost predicate SymmetricAt(f: Vec -> Vec, u: Vec, w: Vec) {
    |f(u)| == |w| && |u| == |f(w)| && Dot(f(u), w) == Dot(u, f(w))
  }

  ghost predicate Symmetric(n: nat, f: Vec -> Vec) {
    forall u: Vec, w: Vec :: |u| == n && |w| == n ==> SymmetricAt(f, u, w)
  }

  ghost predicate LinearAt(f: Vec -> Vec, u: Vec, a: real, w: Vec)
    requires |u| == |w|
  {
    |f(u)| == |f(w)| && f(Plus(u, Scale(a, w))) == Plus(f(u), Scale(a, f(w)))
  }

  ghost predicate Linear(n: nat, f: Vec -> Vec) {
    forall u: Vec, a: real, w: Vec :: |u| == n && |w| == n ==> LinearAt(f, u, a, w)
  }

  ghost predicate NotPositiveAt(f: Vec -> Vec, u: Vec) {
    |f(u)| == |u| && Dot(u, f(u)) <= 0.0
  }

  ghost predicate NeverPositive(n: nat, f: Vec -> Vec) {
    forall u: Vec :: |u| == n ==> NotPositiveAt(f, u)
  }

  /** One iterate: the pressure, its residual, the preconditioned residual and
      the search direction. */
  datatype Iterate = Iterate(p: Vec, r: Vec, z: Vec, d: Vec)

  /** Solving A p = b from `p0` with preconditioner M. */
  datatype Problem = Problem(n: nat, operator: Vec -> Vec, preconditioner: Vec -> Vec, b: Vec, p0: Vec)
  {
    /** A and M are symmetric operators, A linear and negative semidefinite. */
    ghost predicate Valid() {
      && |b| == n && |p0| == n
      && Maps(n, operator) && Maps(n, preconditioner)
      && Symmetric(n, operator) && Symmetric(n, preconditioner)
      && Linear(n, operator) && NeverPositive(n, operator)
    }

    ghost predicate Sized(s: Iterate) {
      |s.p| == n && |s.r| == n && |s.z| == n && |s.d| == n
    }

    ghost function A(u: Vec): (w: Vec)
      requires Valid() && |u| == n
      ensures |w| == n
    {
      operator(u)
    }

    ghost function M(u: Vec): (w: Vec)
      requires Valid() && |u| == n
      ensures |w| == n
    {
      preconditioner(u)
    }

    /** A guard fires: one of the two products is negligible, and p and r stay. */
    ghost predicate Stuck(s: Iterate)
      requires Valid() && Sized(s)
    {
      Negligible(Dot(s.r, s.z)) || Negligible(Dot(s.d, A(s.d)))
    }

    ghost function Alpha(s: Iterate): real
      requires Valid() && Sized(s)
    {
      if Stuck(s) then 0.0 else Dot(s.r, s.z) / Dot(s.d, A(s.d))
    }

    ghost function Beta(s: Iterate, r: Vec, z: Vec): real
      requires Valid() && Sized(s) && |r| == |z|
    {
      if Negligible(Dot(s.r, s.z)) then 0.0 else Dot(r, z) / Dot(s.r, s.z)
    }

    ghost function First(): (s: Iterate)
      requires Valid()
      ensures Sized(s)
    {
      var r := Minus(b, A(p0));
      var z := M(r);
      Iterate(p0, r, z, z)
    }

    ghost function Next(s: Iterate): (t: Iterate)
      requires Valid() && Sized(s)
      ensures Sized(t)
    {
      var p := Plus(s.p, Scale(Alpha(s), s.d));
      var r := Plus(s.r, Scale(-Alpha(s), A(s.d)));
      var z := M(r);
      Iterate(p, r, z, Plus(z, Scale(Beta(s, r, z), s.d)))
    }

    /** The k-th iterate. */
    ghost function At(k: nat): (s: Iterate)
      requires Valid()
      ensures Sized(s)
    {
      if k == 0 then First() else Next(At(k - 1))
    }

    // ------------------------------------------------------------ A and M

    lemma SymA(u: Vec, w: Vec)
      requires Valid() && |u| == n && |w| == n
      ensures Dot(A(u), w) == Dot(u, A(w))
    {
      assert SymmetricAt(operator, u, w);
    }

    lemma LinearA(u: Vec, a: real, w: Vec)
      requires Valid() && |u| == n && |w| == n
      ensures A(Plus(u, Scale(a, w))) == Plus(A(u), Scale(a, A(w)))
    {
      assert LinearAt(operator, u, a, w);
    }

    lemma NegativeA(u: Vec)
      requires Valid() && |u| == n
      ensures Dot(u, A(u)) <= 0.0
    {
      assert NotPositiveAt(operator, u);
    }

    lemma SymM(u: Vec, w: Vec)
      requires Valid() && |u| == n && |w| == n
      ensures Dot(M(u), w) == Dot(u, M(w))
    {
      assert SymmetricAt(preconditioner, u, w);
    }

    lemma Sizes()
      requires Valid()
      ensures |b| == n && |p0| == n
    {
    }

    lemma ZIsMR(k: nat)
      requires Valid()
      ensures At(k).z == M(At(k).r)
    {
      hide Problem.Valid; hide Problem.M;
    }

    /** M's symmetry, on the iterates. */
    lemma ZAgainstR(j: nat, k: nat)
      requires Valid()
      ensures Dot(At(j).z, At(k).r) == Dot(At(j).r, At(k).z)
    {
      hide Problem.Valid; hide Problem.M;
      ZIsMR(j);
      ZIsMR(k);
      SymM(At(j).r, At(k).r);
    }

    // ------------------------------------------------------------ every run

    /** Whatever the guards do, r is the residual of p. */
    lemma {:induction false} ResidualKept(k: nat)
      requires Valid()
      ensures |b| == n && At(k).r == Minus(b, A(At(k).p))
    {
      hide Problem.Valid;
      Sizes();
      if k > 0 {
        ResidualKept(k - 1);
        ResidualNext(At(k - 1));
      }
    }

    lemma ResidualNext(s: Iterate)
      requires Valid() && Sized(s) && |b| == n && s.r == Minus(b, A(s.p))
      ensures Next(s).r == Minus(b, A(Next(s).p))
    {
      hide Problem.Valid; hide Problem.A; hide Problem.Alpha;
      LinearA(s.p, Alpha(s), s.d);
      MinusPlus(b, A(s.p), Alpha(s), A(s.d));
    }

    /** Once the guard on <r,z> fires, nothing moves again. */
    lemma {:induction false} Frozen(k: nat, j: nat)
      requires Valid() && Negligible(Dot(At(k).r, At(k).z))
      ensures At(k + j).p == At(k).p && At(k + j).r == At(k).r && At(k + j).z == At(k).z
    {
      hide Problem.Valid;
      if j > 0 {
        Frozen(k, j - 1);
        var s := At(k + j - 1);
        assert At(k + j) == Next(s);
        ZIsMR(k + j - 1);
        Unmoved(s);
      }
    }

    /** A skipped update leaves p, r and z alone. */
    lemma Unmoved(s: Iterate)
      requires Valid() && Sized(s) && Stuck(s)
      ensures Next(s).p == s.p && Next(s).r == s.r && Next(s).z == M(s.r)
    {
      hide Problem.Valid;
      var q := A(s.d);
      hide Problem.A;
      PlusNothing(s.p, s.d);
      PlusNothing(s.r, q);
    }

    /** How many times over the direction repeats the preconditioned residual:
        1, and one more for each update a negligible <d,Ad> skipped. */
    ghost function Repeats(k: nat): (c: real)
      requires Valid()
      ensures c >= 1.0
    {
      if k == 0 then 1.0 else
        var s := At(k - 1);
        if Negligible(Dot(s.r, s.z)) then 1.0
        else if Stuck(s) then Repeats(k - 1) + 1.0
        else Repeats(k - 1)
    }

    /** The residual against the direction, in every run. */
    lemma {:induction false} AlongDirection(k: nat)
      requires Valid()
      ensures Dot(At(k).r, At(k).d) == Product(Repeats(k), Dot(At(k).r, At(k).z))
    {
      hide Problem.Valid; hide Problem.Alpha; hide Dot; hide Problem.A; hide Negligible; hide Problem.Stuck;
      hide Product;
      if k == 0 {
        Once(Dot(First().r, First().z));
      } else {
        hide Problem.Next;
        AlongDirection(k - 1);
        ZIsMR(k - 1);
        AlongNext(At(k - 1), Repeats(k - 1), Repeats(k));
      }
    }

    lemma AlongNext(s: Iterate, c: real, c': real)
      requires Valid() && Sized(s) && s.z == M(s.r)
      requires Dot(s.r, s.d) == Product(c, Dot(s.r, s.z))
      requires c' == if Negligible(Dot(s.r, s.z)) then 1.0 else if Stuck(s) then c + 1.0 else c
      ensures var t := Next(s); Dot(t.r, t.d) == Product(c', Dot(t.r, t.z))
    {
      hide Problem.Valid;
      var t, beta := Next(s), Beta(s, Next(s).r, Next(s).z);
      AgainstUsed(s);
      if Stuck(s) { Unmoved(s); }
      var rz, rz', dad := Dot(s.r, s.z), Dot(t.r, t.z), Dot(s.d, A(s.d));
      var alpha := Alpha(s);
      assert t.d == Plus(t.z, Scale(beta, s.d));
      hide Problem.A; hide Problem.Next; hide Problem.M; hide Dot;
      DotAxpy(t.z, beta, s.d, t.r);
      if Negligible(rz) {
      } else if Stuck(s) {
        RepeatsOnce(beta, rz, c);
      } else {
        RepeatsKept(alpha, beta, rz, rz', dad, c, Dot(s.r, s.d), Dot(t.r, s.d), Dot(t.r, t.d));
      }
    }

    /** The new residual against the direction just used. */
    lemma AgainstUsed(s: Iterate)
      requires Valid() && Sized(s)
      ensures Dot(Next(s).r, s.d) == Dot(s.r, s.d) - Product(Alpha(s), Dot(s.d, A(s.d)))
    {
      hide Problem.Valid;
      var q, alpha := A(s.d), Alpha(s);
      assert Next(s).r == Plus(s.r, Scale(-alpha, q));
      hide Problem.A; hide Problem.Next; hide Problem.Alpha; hide Dot;
      DotAxpy(s.r, -alpha, q, s.d);
      DotCommutes(q, s.d);
      Negated(alpha, Dot(s.d, q));
    }

    /** The quadratic form a solution is stationary for; A is negative
        semidefinite, so a solution is where it is greatest. */
    ghost function Energy(p: Vec): real
      requires Valid() && |p| == n
    {
      0.5 * Dot(p, A(p)) - Dot(b, p)
    }

    lemma EnergyAlong(p: Vec, a: real, w: Vec)
      requires Valid() && |p| == n && |w| == n
      ensures |b| == n
      ensures Energy(Plus(p, Scale(a, w)))
        == Energy(p) - Product(a, Dot(Minus(b, A(p)), w)) + Product(0.5 * (a * a), Dot(w, A(w)))
    {
      hide Problem.Valid;
      Sizes();
      var q := Plus(p, Scale(a, w));
      LinearA(p, a, w);
      SymA(p, w);
      var ap, aw, aq := A(p), A(w), A(q);
      hide *;
      DotAxpy(ap, a, aw, q);
      DotAxpy(p, a, w, ap);
      DotAxpy(p, a, w, aw);
      DotAxpy(p, a, w, b);
      DotMinus(b, ap, w);
      DotCommutes(p, aw);
      DotCommutes(ap, p);
      DotCommutes(w, aw);
      DotCommutes(w, ap);
      EnergyScalars(a, Dot(p, ap), Dot(ap, w), Dot(w, aw), Dot(b, p), Dot(b, w), Dot(ap, q), Dot(aw, q), Dot(q, aq),
        Dot(b, q));
    }

    /** Every update that is not skipped raises the energy, and none lowers it. */
    lemma EnergyRises(k: nat)
      requires Valid()
      ensures Energy(At(k + 1).p) >= Energy(At(k).p)
      ensures Energy(At(k + 1).p) > Energy(At(k).p) <==> !Stuck(At(k))
    {
      hide Problem.Valid;
      hide Problem.Energy; hide Problem.Next; hide Problem.Stuck; hide Dot; hide Problem.Repeats; hide Problem.A;
      ResidualKept(k);
      AlongDirection(k);
      assert At(k + 1) == Next(At(k));
      EnergyNext(At(k), Repeats(k));
    }

    /** No run ends below where it was: more iterations never hurt. */
    lemma {:induction false} MoreNeverHurts(k: nat, j: nat)
      requires Valid()
      ensures Energy(At(k + j).p) >= Energy(At(k).p)
    {
      hide Problem.Valid; hide Problem.At; hide Problem.Energy; hide Problem.Stuck;
      if j > 0 {
        MoreNeverHurts(k, j - 1);
        EnergyRises(k + j - 1);
      }
    }

    lemma EnergyNext(s: Iterate, c: real)
      requires Valid() && Sized(s) && |b| == n && s.r == Minus(b, A(s.p))
      requires c >= 1.0 && Dot(s.r, s.d) == Product(c, Dot(s.r, s.z))
      ensures Energy(Next(s).p) >= Energy(s.p)
      ensures Energy(Next(s).p) > Energy(s.p) <==> !Stuck(s)
    {
      hide Problem.Valid; hide Problem.A; hide Dot; hide Problem.Energy; hide Plus; hide Scale;
      if Stuck(s) {
        Unmoved(s);
      } else {
        NegativeA(s.d);
        EnergyAlong(s.p, Alpha(s), s.d);
        var rz, dad, alpha := Dot(s.r, s.z), Dot(s.d, A(s.d)), Alpha(s);
        assert Next(s).p == Plus(s.p, Scale(alpha, s.d));
        assert !Negligible(rz) && !Negligible(dad) && alpha == rz / dad;
        assert rz != 0.0 && dad < 0.0;
        hide *;
        Gain(alpha, rz, dad, c, Dot(s.r, s.d));
      }
    }

    // ------------------------------------------------------------ regular runs

    /** No guard fires in the first `k` updates: textbook conjugate gradients. */
    ghost predicate Regular(k: nat)
      requires Valid()
    {
      forall i: nat :: i < k ==> !Stuck(At(i))
    }

    /** A regular update, as the textbook writes it. */
    lemma Textbook(k: nat)
      requires Valid() && Regular(k + 1)
      ensures var s, t := At(k), At(k + 1);
        && Dot(s.r, s.z) != 0.0 && Dot(s.d, A(s.d)) != 0.0
        && Product(Alpha(s), Dot(s.d, A(s.d))) == Dot(s.r, s.z) && Alpha(s) != 0.0
        && Product(Beta(s, t.r, t.z), Dot(s.r, s.z)) == Dot(t.r, t.z)
        && t.r == Plus(s.r, Scale(-Alpha(s), A(s.d)))
        && t.d == Plus(t.z, Scale(Beta(s, t.r, t.z), s.d))
    {
      hide Problem.Valid; hide Problem.A; hide Dot;
      assert !Stuck(At(k));
      assert At(k + 1) == Next(At(k));
    }

    // ------------------------------------------------------------ the textbook's run

    /** Nothing is left to do: the textbook stops here. */
    ghost predicate Finished(s: Iterate)
      requires Valid() && Sized(s)
    {
      Dot(s.r, s.z) == 0.0
    }

    /** The textbook's step, which divides by both products unguarded. */
    ghost function TextbookNext(s: Iterate): (t: Iterate)
      requires Valid() && Sized(s) && !Finished(s) && Dot(s.d, A(s.d)) != 0.0
      ensures Sized(t)
    {
      var alpha := Dot(s.r, s.z) / Dot(s.d, A(s.d));
      var r := Plus(s.r, Scale(-alpha, A(s.d)));
      var z := M(r);
      Iterate(Plus(s.p, Scale(alpha, s.d)), r, z, Plus(z, Scale(Dot(r, z) / Dot(s.r, s.z), s.d)))
    }

    /** The textbook's k-th iterate: none once a division by zero is due. */
    ghost function TextbookAt(k: nat): (s: Option<Iterate>)
      requires Valid()
      ensures s.Some? ==> Sized(s.value)
    {
      if k == 0 then Some(First()) else
        var s := TextbookAt(k - 1);
        if s.None? || Finished(s.value) then s
        else if Dot(s.value.d, A(s.value.d)) == 0.0 then None
        else Some(TextbookNext(s.value))
    }

    /** Where the textbook can take a step, this one takes the same exactly
        when neither guard fires. */
    lemma TextbookStep(s: Iterate)
      requires Valid() && Sized(s) && !Finished(s) && Dot(s.d, A(s.d)) != 0.0
      ensures Next(s) == TextbookNext(s) <==> !Stuck(s)
      ensures Next(s).p == TextbookNext(s).p <==> !Stuck(s)
    {
      hide Problem.Valid; hide Problem.A; hide Dot;
      if Stuck(s) {
        var alpha := Dot(s.r, s.z) / Dot(s.d, A(s.d));
        Unmoved(s);
        NonzeroRatio(Dot(s.r, s.z), Dot(s.d, A(s.d)));
        if Plus(s.p, Scale(alpha, s.d)) == s.p {
          MovedNowhere(s.p, alpha, s.d, A(s.d));
          assert false;
        }
      }
    }

    /** Where only the guard on <d,Ad> fires, along a direction not yet renewed,
        the next direction is twice as long; if its product then passes, the step
        comes one iteration late and lands half as far as the textbook's. */
    lemma LateStepIsHalf(s: Iterate)
      requires Valid() && Sized(s) && s.z == M(s.r) && s.d == s.z
      requires !Negligible(Dot(s.r, s.z)) && Negligible(Dot(s.d, A(s.d))) && !Negligible(4.0 * Dot(s.d, A(s.d)))
      ensures !Finished(s) && Dot(s.d, A(s.d)) != 0.0 && Next(s).p == s.p && !Stuck(Next(s))
      ensures var alpha := Dot(s.r, s.z) / Dot(s.d, A(s.d));
        && TextbookNext(s).p == Plus(s.p, Scale(alpha, s.d))
        && Next(Next(s)).p == Plus(s.p, Scale(alpha / 2.0, s.d))
        && Next(Next(s)).p != TextbookNext(s).p
    {
      hide Problem.Valid; hide Problem.A; hide Problem.M; hide Dot; hide Negligible; hide Problem.Next;
      hide Problem.TextbookNext; hide Scale; hide Plus;
      var rz, dad := Dot(s.r, s.z), Dot(s.d, A(s.d));
      NegligibleZero();
      DirectionDoubles(s);
      StepTaken(Next(s));
      TextbookTaken(s);
      HalfAlong(rz, dad);
      ScaleOfScale(rz / (4.0 * dad), 2.0, s.d);
      StepsDiffer(s, rz / dad);
    }

    lemma StepTaken(s: Iterate)
      requires Valid() && Sized(s) && !Stuck(s)
      ensures Dot(s.d, A(s.d)) != 0.0
      ensures Next(s).p == Plus(s.p, Scale(Dot(s.r, s.z) / Dot(s.d, A(s.d)), s.d))
    {
      hide Problem.Valid; hide Problem.A; hide Dot;
    }

    lemma TextbookTaken(s: Iterate)
      requires Valid() && Sized(s) && !Finished(s) && Dot(s.d, A(s.d)) != 0.0
      ensures TextbookNext(s).p == Plus(s.p, Scale(Dot(s.r, s.z) / Dot(s.d, A(s.d)), s.d))
    {
      hide Problem.Valid; hide Problem.A; hide Problem.M; hide Dot;
    }

    lemma DirectionDoubles(s: Iterate)
      requires Valid() && Sized(s) && s.z == M(s.r) && s.d == s.z
      requires !Negligible(Dot(s.r, s.z)) && Negligible(Dot(s.d, A(s.d)))
      ensures Next(s) == Iterate(s.p, s.r, s.z, Scale(2.0, s.d))
      ensures Dot(Scale(2.0, s.d), A(Scale(2.0, s.d))) == 4.0 * Dot(s.d, A(s.d))
    {
      hide Problem.Valid; hide Problem.A; hide Problem.M; hide Dot; hide Negligible;
      NegligibleZero();
      Unmoved(s);
      assert Beta(s, s.r, s.z) == 1.0;
      assert Plus(s.z, Scale(1.0, s.d)) == Scale(2.0, s.d);
      var ad := A(s.d);
      assert Scale(2.0, s.d) == Plus(s.d, Scale(1.0, s.d));
      LinearA(s.d, 1.0, s.d);
      assert Plus(ad, Scale(1.0, ad)) == Scale(2.0, ad);
      DotScale(2.0, s.d, Scale(2.0, ad));
      DotCommutes(s.d, Scale(2.0, ad));
      DotScale(2.0, ad, s.d);
      DotCommutes(ad, s.d);
    }

    lemma StepsDiffer(s: Iterate, alpha: real)
      requires Valid() && Sized(s) && alpha != 0.0 && Dot(s.d, A(s.d)) != 0.0
      ensures Plus(s.p, Scale(alpha / 2.0, s.d)) != Plus(s.p, Scale(alpha, s.d))
    {
      hide Problem.Valid; hide Problem.A; hide Dot;
      var half, whole := Plus(s.p, Scale(alpha / 2.0, s.d)), Plus(s.p, Scale(alpha, s.d));
      if half == whole {
        assert whole == Plus(half, Scale(alpha / 2.0, s.d));
        MovedNowhere(half, alpha / 2.0, s.d, A(s.d));
        assert false;
      }
    }

    ghost predicate SamePressure(k: nat)
      requires Valid()
    {
      TextbookAt(k).Some? && TextbookAt(k).value.p == At(k).p
    }

    /** No guard fires at iterate `i` while there is something to do. */
    ghost predicate Clear(i: nat)
      requires Valid()
    {
      Finished(At(i)) || !Stuck(At(i))
    }

    /** The pressures are the textbook's, up to the n-th, exactly when no guard
        fired before it while there was still something to do. */
    lemma RunIsTextbook(n: nat)
      requires Valid()
      ensures (forall k: nat :: k <= n ==> SamePressure(k)) <==> (forall i: nat :: i < n ==> Clear(i))
    {
      hide Problem.Valid; hide Problem.Clear; hide Problem.SamePressure;
      if forall i: nat :: i < n ==> Clear(i) {
        forall k: nat | k <= n ensures SamePressure(k) {
          AgreesWhile(k);
          SameWhenAgreed(k);
        }
      }
      if forall k: nat :: k <= n ==> SamePressure(k) {
        forall i: nat | i < n ensures Clear(i) { NoGuardFired(n, i); }
      }
    }

    lemma SameWhenAgreed(k: nat)
      requires Valid() && Agrees(k)
      ensures SamePressure(k)
    {
    }

    ghost predicate Agrees(k: nat)
      requires Valid()
    {
      var s, t := At(k), TextbookAt(k);
      && t.Some? && t.value.p == s.p && t.value.r == s.r && t.value.z == s.z
      && (Finished(s) || t.value.d == s.d)
    }

    lemma {:induction false} AgreesWhile(k: nat)
      requires Valid() && forall i: nat :: i < k ==> Clear(i)
      ensures Agrees(k)
    {
      hide Problem.Valid; hide Problem.A; hide Dot;
      if k > 0 {
        AgreesWhile(k - 1);
        var s := At(k - 1);
        assert Clear(k - 1);
        if Finished(s) {
          ZIsMR(k - 1);
          Unmoved(s);
        } else {
          AccurateStep(s);
        }
      }
    }

    /** A step no guard stops never divides by zero. */
    lemma AccurateStep(s: Iterate)
      requires Valid() && Sized(s) && !Stuck(s)
      ensures !Finished(s) && Dot(s.d, A(s.d)) != 0.0 && Next(s) == TextbookNext(s)
    {
      hide Problem.Valid; hide Problem.A; hide Dot;
    }

    lemma {:induction false} NoGuardFired(n: nat, i: nat)
      requires Valid() && i < n
      requires forall k: nat :: k <= n ==> SamePressure(k)
      ensures Clear(i)
      decreases i
    {
      hide Problem.Valid; hide Problem.A; hide Dot; hide Problem.Stuck;
      forall j: nat | j < i ensures Clear(j) { NoGuardFired(n, j); }
      AgreesWhile(i);
      var s := At(i);
      if !Finished(s) {
        assert TextbookAt(i).value == s;
        assert SamePressure(i + 1) && At(i + 1) == Next(s);
        TextbookStep(s);
      }
    }

    /** The residual is orthogonal to every direction used. */
    lemma {:induction false} ResidualAgainstDirection(n: nat, i: nat)
      requires Valid() && i < n && Regular(n)
      ensures Dot(At(n).r, At(i).d) == 0.0
      decreases n, 1
    {
      hide Problem.Valid; hide Problem.A; hide Dot; hide Problem.At; hide Problem.Alpha; hide Problem.Beta;
      hide Problem.Stuck;
      var m := n - 1;
      Textbook(m);
      var s, alpha := At(m), Alpha(At(m));
      DotAxpy(s.r, -alpha, A(s.d), At(i).d);
      SymA(s.d, At(i).d);
      if i < m {
        ResidualAgainstDirection(m, i);
        DirectionsConjugate(m, i);
        ProductZero(-alpha);
      } else {
        ResidualAlongOwn(m);
        DotCommutes(A(s.d), s.d);
        Negated(alpha, Dot(s.d, A(s.d)));
      }
    }

    lemma {:induction false} ResidualAlongOwn(n: nat)
      requires Valid() && Regular(n)
      ensures Dot(At(n).r, At(n).d) == Dot(At(n).r, At(n).z)
      decreases n, 2
    {
      hide Problem.Valid; hide Problem.A; hide Dot; hide Problem.Alpha; hide Problem.Beta; hide Problem.Stuck;
      if n == 0 {
        assert At(0).d == At(0).z;
      } else {
        hide Problem.At;
        Textbook(n - 1);
        var s, t := At(n - 1), At(n);
        DotAxpy(t.z, Beta(s, t.r, t.z), s.d, t.r);
        ResidualAgainstDirection(n, n - 1);
        ProductZero(Beta(s, t.r, t.z));
      }
    }

    /** Residuals of different iterates are orthogonal through M. */
    lemma {:induction false} ResidualsConjugate(n: nat, i: nat)
      requires Valid() && i < n && Regular(n)
      ensures Dot(At(n).r, At(i).z) == 0.0
      decreases n, 2
    {
      hide Problem.Valid; hide Problem.A; hide Dot; hide Problem.Alpha; hide Problem.Beta; hide Problem.Stuck;
      ResidualAgainstDirection(n, i);
      if i == 0 {
        assert At(0).d == At(0).z;
      } else {
        hide Problem.At;
        RegularBefore(n, i);
        Textbook(i - 1);
        ResidualAgainstDirection(n, i - 1);
        var s, t := At(i - 1), At(i);
        DotAxpy(t.z, Beta(s, t.r, t.z), s.d, At(n).r);
        ProductZero(Beta(s, t.r, t.z));
      }
    }

    /** Directions are conjugate. */
    lemma {:induction false} DirectionsConjugate(n: nat, i: nat)
      requires Valid() && i < n && Regular(n)
      ensures Dot(At(n).d, A(At(i).d)) == 0.0
      decreases n, 3
    {
      hide Problem.Valid; hide Problem.A; hide Dot; hide Problem.At; hide Problem.Alpha; hide Problem.Beta;
      hide Problem.Stuck;
      var m := n - 1;
      RegularBefore(n, i + 1);
      Textbook(m);
      Textbook(i);
      var s, t, u, w := At(m), At(n), At(i), At(i + 1);
      var ad := A(u.d);
      var beta, alpha := Beta(s, t.r, t.z), Alpha(u);
      DotAxpy(t.z, beta, s.d, ad);
      DotAxpy(u.r, -alpha, ad, t.z);
      Negated(alpha, Dot(t.z, ad));
      ZAgainstR(n, i);
      ZAgainstR(n, i + 1);
      ResidualsConjugate(n, i);
      if i < m {
        ResidualsConjugate(n, i + 1);
        DirectionsConjugate(m, i);
        hide *;
        Untouched(alpha, beta, Dot(t.z, ad));
      } else {
        hide *;
        Conjugated(alpha, beta, Dot(t.z, ad), Dot(s.r, s.z), Dot(t.r, t.z), Dot(s.d, ad));
      }
    }

    lemma RegularBefore(n: nat, k: nat)
      requires Valid() && Regular(n) && k <= n
      ensures Regular(k)
    {
      hide Problem.Valid; hide Problem.Stuck; hide Problem.At;
    }

    // ------------------------------------------------------------ optimality

    /** A combination of the first `k` directions. */
    ghost function Span(k: nat, c: seq<real>): (w: Vec)
      requires Valid() && k <= |c|
      ensures |w| == n
    {
      if k == 0 then Zeros(n) else Plus(Span(k - 1, c), Scale(c[k - 1], At(k - 1).d))
    }

    lemma {:induction false} ResidualAgainstSpan(n: nat, k: nat, c: seq<real>)
      requires Valid() && Regular(n) && k <= |c| && k <= n
      ensures Dot(At(n).r, Span(k, c)) == 0.0
    {
      hide Problem.Valid; hide Problem.At;
      var r := At(n).r;
      if k == 0 {
        DotZeros(r);
        DotCommutes(r, Zeros(|r|));
      } else {
        ResidualAgainstSpan(n, k - 1, c);
        ResidualAgainstDirection(n, k - 1);
        var before, d, a := Span(k - 1, c), At(k - 1).d, c[k - 1];
        assert Span(k, c) == Plus(before, Scale(a, d));
        hide *;
        DotAxpy(before, a, d, r);
        ProductZero(a);
      }
    }

    /** The coefficients the updates used. */
    ghost function Alphas(k: nat): (c: seq<real>)
      requires Valid()
      ensures |c| == k
    {
      if k == 0 then [] else Alphas(k - 1) + [Alpha(At(k - 1))]
    }

    lemma {:induction false} SpanTo(k: nat, c: seq<real>, c': seq<real>)
      requires Valid() && k <= |c| && k <= |c'| && c[..k] == c'[..k]
      ensures Span(k, c) == Span(k, c')
    {
      hide Problem.Valid; hide Problem.At;
      if k > 0 {
        assert c[k - 1] == c[..k][k - 1] && c'[k - 1] == c'[..k][k - 1];
        assert c[..k - 1] == c[..k][..k - 1] && c'[..k - 1] == c'[..k][..k - 1];
        SpanTo(k - 1, c, c');
      }
    }

    /** An iterate is the start plus a combination of the directions used. */
    lemma {:induction false} Reached(k: nat)
      requires Valid()
      ensures |p0| == n && At(k).p == Plus(p0, Span(k, Alphas(k)))
    {
      hide Problem.Valid; hide Problem.Alpha; hide Problem.M; hide Problem.A; hide Problem.Beta;
      Sizes();
      if k == 0 {
        assert Plus(p0, Zeros(n)) == p0;
      } else {
        Reached(k - 1);
        var s, c := At(k - 1), Alphas(k);
        assert c[..k - 1] == Alphas(k - 1)[..k - 1];
        SpanTo(k - 1, c, Alphas(k - 1));
        assert At(k).p == Plus(s.p, Scale(Alpha(s), s.d));
        hide Problem.At;
        PlusAssociates(p0, Span(k - 1, c), Scale(Alpha(s), s.d));
      }
    }

    /** Two combinations differ by a combination. */
    lemma {:induction false} SpanMinus(k: nat, c: seq<real>, c': seq<real>, e: seq<real>)
      requires Valid() && k <= |c| && |c| == |c'| == |e|
      requires forall i :: 0 <= i < k ==> e[i] == c[i] - c'[i]
      ensures Span(k, c) == Plus(Span(k, c'), Span(k, e))
    {
      hide Problem.Valid; hide Problem.At;
      if k == 0 {
        assert Plus(Zeros(n), Zeros(n)) == Zeros(n);
      } else {
        SpanMinus(k - 1, c, c', e);
        var d := At(k - 1).d;
        forall j | 0 <= j < n ensures Span(k, c)[j] == Plus(Span(k, c'), Span(k, e))[j] {
          Difference(c[k - 1], c'[k - 1], d[j]);
        }
      }
    }

    /** While no guard fires, the n-th iterate has the greatest energy that any
        combination of the directions used so far can reach from the start. */
    lemma Best(n': nat, c: seq<real>)
      requires Valid() && Regular(n') && |c| == n'
      ensures |p0| == n && Energy(Plus(p0, Span(n', c))) <= Energy(At(n').p)
    {
      hide Problem.Valid; hide Problem.At; hide Problem.Energy; hide Dot; hide Problem.Span; hide Problem.Regular;
      Sizes();
      var a := Alphas(n');
      var e := seq(n', i requires 0 <= i < n' => c[i] - a[i]);
      Reached(n');
      SpanMinus(n', c, a, e);
      var w := Span(n', e);
      ResidualAgainstSpan(n', n', e);
      ResidualKept(n');
      EnergyAlong(At(n').p, 1.0, w);
      NegativeA(w);
      PlusAssociates(p0, Span(n', a), w);
      assert Scale(1.0, w) == w;
      ProductZero(1.0);
    }
  }

  lemma Gain(alpha: real, rz: real, dad: real, c: real, rd: real)
    requires rz != 0.0 && dad < 0.0 && alpha == rz / dad && c >= 1.0 && rd == Product(c, rz)
    ensures -Product(alpha, rd) + Product(0.5 * (alpha * alpha), dad) > 0.0
  {
    assert alpha * dad == rz;
    assert alpha != 0.0;
    var s := alpha * alpha;
    assert s > 0.0;
    assert alpha * (c * rz) == c * (s * dad) by { assert alpha * rz == s * dad; }
    assert s * dad < 0.0;
    assert c * (s * dad) <= s * dad;
  }

  lemma Once(x: real)
    ensures Product(1.0, x) == x
  {
  }

  lemma ProductZero(a: real)
    ensures Product(a, 0.0) == 0.0 && Product(0.0, a) == 0.0
  {
  }

  lemma Untouched(alpha: real, beta: real, x: real)
    requires alpha != 0.0 && 0.0 == 0.0 - Product(alpha, x)
    ensures x + Product(beta, 0.0) == 0.0
  {
  }

  lemma Conjugated(alpha: real, beta: real, x: real, rz: real, rz': real, dad: real)
    requires alpha != 0.0 && Product(alpha, dad) == rz && Product(beta, rz) == rz' && rz' == 0.0 - Product(alpha, x)
    ensures x + Product(beta, dad) == 0.0
  {
    assert alpha * (x + beta * dad) == alpha * x + beta * (alpha * dad);
  }

  lemma Difference(c: real, c': real, d: real)
    ensures c * d == c' * d + (c - c') * d
  {
  }

  lemma MinusPlus(b: Vec, x: Vec, a: real, y: Vec)
    requires |b| == |x| == |y|
    ensures Minus(b, Plus(x, Scale(a, y))) == Plus(Minus(b, x), Scale(-a, y))
  {
    forall i | 0 <= i < |b| ensures Minus(b, Plus(x, Scale(a, y)))[i] == Plus(Minus(b, x), Scale(-a, y))[i] {
      Negated(a, y[i]);
    }
  }

  lemma NonzeroRatio(a: real, b: real)
    requires a != 0.0 && b != 0.0
    ensures a / b != 0.0
  {
    assert a / b * b == a;
  }

  /** A multiple of `d` that moves nothing is no multiple at all, or of nothing. */
  lemma MovedNowhere(p: Vec, alpha: real, d: Vec, ad: Vec)
    requires |p| == |d| == |ad| && Plus(p, Scale(alpha, d)) == p && alpha != 0.0
    ensures Dot(d, ad) == 0.0
  {
    forall i | 0 <= i < |d| ensures d[i] == 0.0 {
      assert Plus(p, Scale(alpha, d))[i] == p[i] + alpha * d[i];
      NoFactor(alpha, d[i]);
    }
    assert d == Zeros(|ad|);
    DotZeros(ad);
  }

  lemma NoFactor(a: real, x: real)
    requires a != 0.0 && a * x == 0.0
    ensures x == 0.0
  {
  }

  lemma NegligibleZero()
    ensures Negligible(0.0)
  {
  }

  lemma ScaleOfScale(a: real, b: real, v: Vec)
    ensures Scale(a, Scale(b, v)) == Scale(a * b, v)
  {
    forall i | 0 <= i < |v| ensures Scale(a, Scale(b, v))[i] == Scale(a * b, v)[i] {
      Regrouped(a, b, v[i]);
    }
  }

  lemma Regrouped(a: real, b: real, x: real)
    ensures a * (b * x) == a * b * x
  {
  }

  /** Doubling a direction quadruples its product and halves the step along it. */
  lemma HalfAlong(rz: real, dad: real)
    requires dad != 0.0
    ensures rz / (4.0 * dad) * 2.0 == rz / dad / 2.0
  {
    var q := rz / dad;
    assert q * dad == rz;
    assert q / 4.0 * (4.0 * dad) == rz;
    assert rz / (4.0 * dad) == q / 4.0;
  }

  lemma PlusNothing(u: Vec, v: Vec)
    requires |u| == |v|
    ensures Plus(u, Scale(0.0, v)) == u && Plus(u, Scale(-0.0, v)) == u
  {
  }

  lemma Negated(a: real, x: real)
    ensures -a * x == -Product(a, x) && a * -x == -Product(a, x)
  {
  }

  lemma RepeatsOnce(beta: real, rz: real, c: real)
    requires rz != 0.0 && beta == rz / rz
    ensures rz + beta * Product(c, rz) == Product(c + 1.0, rz)
  {
    assert beta == 1.0;
    assert Product(c + 1.0, rz) == c * rz + rz;
  }

  lemma RepeatsKept(alpha: real, beta: real, rz: real, rz': real, dad: real, c: real, rd: real, rd1: real, rd': real)
    requires rz != 0.0 && dad != 0.0 && alpha == rz / dad && beta == rz' / rz
    requires rd == Product(c, rz) && rd1 == rd - Product(alpha, dad) && rd' == rz' + beta * rd1
    ensures rd' == Product(c, rz')
  {
    assert alpha * dad == rz;
    assert rd1 == (c - 1.0) * rz;
    assert beta * rz == rz';
    assert beta * rd1 == (c - 1.0) * rz' by { assert beta * ((c - 1.0) * rz) == (c - 1.0) * (beta * rz); }
  }

  lemma EnergyScalars(a: real, pap: real, apw: real, waw: real, bp: real, bw: real, apq: real, awq: real, qaq: real,
      bq: real)
    requires apq == pap + Product(a, apw) && awq == apw + Product(a, waw) && qaq == apq + Product(a, awq)
      && bq == bp + Product(a, bw)
    ensures 0.5 * qaq - bq == (0.5 * pap - bp) - Product(a, bw - apw) + Product(0.5 * (a * a), waw)
  {
    assert a * awq == a * apw + (a * a) * waw;
    assert Product(a, bw - apw) == a * bw - a * apw;
    assert Product(0.5 * (a * a), waw) == 0.5 * ((a * a) * waw);
  }
}
