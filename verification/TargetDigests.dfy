/** The digest of a plan's target ids: the text it hashes, and which id sequences that text
    tells apart. */
module TargetDigests {
  import opened RowPlanChunks

  predicate NewlineFree(ids: seq<string>) { forall i :: 0 <= i < |ids| ==> '\n' !in ids[i] }

  /** The fold loses nothing of ids that contain no newline. */
  lemma {:induction false} FoldInjective(a: seq<string>, b: seq<string>)
    requires NewlineFree(a) && NewlineFree(b) && Fold(a) == Fold(b)
    ensures a == b
  {
    if a == [] || b == [] {
      assert |Fold(a)| == 0 <==> a == [];
      assert |Fold(b)| == 0 <==> b == [];
    } else {
      var x, y := a[|a| - 1], b[|b| - 1];
      var s, t := Fold(a[..|a| - 1]), Fold(b[..|b| - 1]);
      FoldEnds(a[..|a| - 1]);
      FoldEnds(b[..|b| - 1]);
      assert s + x + "\n" == t + y + "\n";
      assert s + x == (s + x + "\n")[..|s + x|];
      assert t + y == (t + y + "\n")[..|t + y|];
      LastLine(s, x, t, y);
      FoldInjective(a[..|a| - 1], b[..|b| - 1]);
      assert a == a[..|a| - 1] + [x] && b == b[..|b| - 1] + [y];
    }
  }

  predicate EndsLine(s: string) { s == "" || s[|s| - 1] == '\n' }

  lemma FoldEnds(ids: seq<string>)
    ensures EndsLine(Fold(ids))
  {
  }

  lemma LastLine(s: string, x: string, t: string, y: string)
    requires EndsLine(s) && EndsLine(t) && '\n' !in x && '\n' !in y && s + x == t + y
    ensures s == t && x == y
  {
    ShorterLine(s, x, t, y);
    ShorterLine(t, y, s, x);
    assert (s + x)[..|s|] == s && (t + y)[..|t|] == t;
    assert (s + x)[|s|..] == x && (t + y)[|t|..] == y;
  }

  lemma ShorterLine(s: string, x: string, t: string, y: string)
    requires EndsLine(s) && '\n' !in y && s + x == t + y
    ensures |s| <= |t|
  {
    if |s| > |t| {
      LongerLineHasNewline(s, x, t, y);
    }
  }

  lemma LongerLineHasNewline(s: string, x: string, t: string, y: string)
    requires EndsLine(s) && s + x == t + y && |s| > |t|
    ensures '\n' in y
  {
    assert (s + x)[|s| - 1] == '\n';
    assert (t + y)[|s| - 1] == y[|s| - 1 - |t|];
  }

  // ---------------------------------------------------------------- newlines

  /** With a newline in an id the fold loses the grouping: two sequences share a digest. */
  lemma NewlinesCollide()
    ensures Fold(["a\nb"]) == Fold(["a", "b"])
  {
    assert ["a\nb"][..0] == [];
    assert ["a", "b"][..1] == ["a"] && ["a"][..0] == [];
    assert Fold(["a"]) == "a\n";
  }

  function Newlines(s: string): nat { multiset(s)['\n'] }

  lemma NewlinesJoin(s: string, t: string)
    ensures Newlines(s + t) == Newlines(s) + Newlines(t)
  {
  }

  lemma NoNewline(s: string)
    ensures Newlines(s) == 0 <==> '\n' !in s
  {
    assert '\n' in s <==> '\n' in multiset(s);
  }

  lemma FoldOneMore(ids: seq<string>, last: string)
    ensures Fold(ids + [last]) == Fold(ids) + last + "\n"
  {
    assert (ids + [last])[..|ids|] == ids;
  }

  lemma LinesOfOneMore(ids: seq<string>, last: string)
    ensures Newlines(Fold(ids + [last])) == Newlines(Fold(ids)) + Newlines(last) + 1
  {
    FoldOneMore(ids, last);
    NewlinesJoin(Fold(ids) + last, "\n");
    NewlinesJoin(Fold(ids), last);
  }

  lemma NewlineFreeOneMore(ids: seq<string>, last: string)
    ensures NewlineFree(ids + [last]) <==> NewlineFree(ids) && '\n' !in last
  {
    assert (ids + [last])[|ids|] == last;
    forall i | 0 <= i < |ids| ensures (ids + [last])[i] == ids[i] {
    }
  }

  /** The folded text has a line for each id, and no more exactly when no id has a newline. */
  lemma {:induction false} LinesOfFold(ids: seq<string>)
    ensures Newlines(Fold(ids)) >= |ids|
    ensures Newlines(Fold(ids)) == |ids| <==> NewlineFree(ids)
  {
    if ids != [] {
      var rest, last := ids[..|ids| - 1], ids[|ids| - 1];
      assert ids == rest + [last];
      LinesOfFold(rest);
      LinesOfOneMore(rest, last);
      NoNewline(last);
      NewlineFreeOneMore(rest, last);
    }
  }

  lemma Reassociate(s: string, t: string, last: string)
    ensures (s + t) + last + "\n" == s + (t + last + "\n")
  {
  }

  lemma {:induction false} FoldConcat(a: seq<string>, b: seq<string>)
    ensures Fold(a + b) == Fold(a) + Fold(b)
  {
    if b == [] {
      assert a + b == a;
    } else {
      var rest, last := b[..|b| - 1], b[|b| - 1];
      FoldConcat(a, rest);
      assert b == rest + [last] && a + b == (a + rest) + [last];
      FoldOneMore(rest, last);
      FoldOneMore(a + rest, last);
      Reassociate(Fold(a), Fold(rest), last);
    }
  }

  lemma FoldTwo(x: string, y: string)
    ensures Fold([x, y]) == x + "\n" + y + "\n" && Fold([x]) == x + "\n"
  {
    assert [x][..0] == [] && Fold([x]) == Fold([]) + x + "\n";
    assert [x, y][..1] == [x] && Fold([x, y]) == Fold([x]) + y + "\n";
  }

  /** Where a newline falls in an id. */
  lemma SplitAtNewline(s: string) returns (x: string, y: string)
    requires '\n' in s
    ensures s == x + "\n" + y
  {
    var k :| 0 <= k < |s| && s[k] == '\n';
    x, y := s[..k], s[k + 1..];
  }

  /** Replacing a run of ids by one with the same fold keeps the fold. */
  lemma FoldMiddle(a: seq<string>, m: seq<string>, n: seq<string>, c: seq<string>)
    requires Fold(m) == Fold(n)
    ensures Fold(a + m + c) == Fold(a + n + c)
  {
    FoldConcat(a, m);
    FoldConcat(a, n);
    FoldConcat(a + m, c);
    FoldConcat(a + n, c);
  }

  /** Splitting an id at its newline gives a longer sequence with the same digest. */
  lemma LongerTwin(a: seq<string>, i: nat) returns (b: seq<string>)
    requires i < |a| && '\n' in a[i]
    ensures Fold(b) == Fold(a) && |b| == |a| + 1
  {
    var x, y := SplitAtNewline(a[i]);
    FoldTwo(x, y);
    FoldTwo(a[i], "");
    b := a[..i] + [x, y] + a[i + 1..];
    FoldMiddle(a[..i], [x, y], [a[i]], a[i + 1..]);
    assert a == a[..i] + [a[i]] + a[i + 1..];
  }

  /** No sequence with the digest of `a` is longer than `a` exactly when no id of `a` has a
      newline. */
  lemma LongestUnlessNewline(a: seq<string>)
    ensures NewlineFree(a) <==> forall b: seq<string> :: Fold(b) == Fold(a) ==> |b| <= |a|
  {
    LinesOfFold(a);
    forall b: seq<string> | NewlineFree(a) && Fold(b) == Fold(a) ensures |b| <= |a| {
      LinesOfFold(b);
    }
    if !NewlineFree(a) {
      var i :| 0 <= i < |a| && '\n' in a[i];
      var b := LongerTwin(a, i);
      assert Fold(b) == Fold(a) && |b| > |a|;
    }
  }

  /** Moving what follows a newline to a neighbouring id keeps both the digest and the count. */
  lemma ShiftedTwin(a: seq<string>, i: nat) returns (b: seq<string>)
    requires i < |a| && '\n' in a[i] && |a| >= 2
    ensures Fold(b) == Fold(a) && |b| == |a| && b != a
  {
    var x, y := SplitAtNewline(a[i]);
    if i + 1 < |a| {
      var z := a[i + 1];
      FoldTwo(a[i], z);
      FoldTwo(x, y + "\n" + z);
      b := a[..i] + [x, y + "\n" + z] + a[i + 2..];
      FoldMiddle(a[..i], [x, y + "\n" + z], [a[i], z], a[i + 2..]);
      assert a == a[..i] + [a[i], z] + a[i + 2..];
      assert |b[i]| < |a[i]|;
    } else {
      var z := a[i - 1];
      FoldTwo(z, a[i]);
      FoldTwo(z + "\n" + x, y);
      b := a[..i - 1] + [z + "\n" + x, y] + a[i + 1..];
      FoldMiddle(a[..i - 1], [z + "\n" + x, y], [z, a[i]], a[i + 1..]);
      assert a == a[..i - 1] + [z, a[i]] + a[i + 1..];
      assert |b[i]| < |a[i]|;
    }
  }

  lemma OneIdPinned(x: string, y: string)
    requires Fold([x]) == Fold([y])
    ensures x == y
  {
    FoldTwo(x, "");
    FoldTwo(y, "");
    assert (x + "\n")[..|x|] == (y + "\n")[..|y|];
  }

  /** Digest and count together pin the ids exactly when there is at most one, or none has a
      newline. */
  lemma CountAndDigestPin(a: seq<string>)
    ensures NewlineFree(a) || |a| <= 1 <==> forall b: seq<string> :: |b| == |a| && Fold(b) == Fold(a) ==> b == a
  {
    forall b: seq<string> | (NewlineFree(a) || |a| <= 1) && |b| == |a| && Fold(b) == Fold(a) ensures b == a {
      LinesOfFold(a);
      LinesOfFold(b);
      if NewlineFree(a) {
        FoldInjective(a, b);
      } else {
        assert a == [a[0]] && b == [b[0]];
        OneIdPinned(a[0], b[0]);
      }
    }
    if !NewlineFree(a) && |a| >= 2 {
      var i :| 0 <= i < |a| && '\n' in a[i];
      var b := ShiftedTwin(a, i);
    }
  }
}
