/** Boolean-mask row selection, the operation `df[mask]` that every filter of the
    pipeline performs. A table is a sequence of rows; pandas index labels are not
    modelled, so a selection is a new sequence and never aliases its input. */
module Frame {

  /** `r` is obtained from `t` by deleting elements, without reordering the rest. */
  predicate IsSubsequence<T(==)>(r: seq<T>, t: seq<T>)
    decreases |t|
  {
    if r == [] then true
    else if t == [] then false
    else if r[0] == t[0] then IsSubsequence(r[1..], t[1..])
    else IsSubsequence(r, t[1..])
  }

  /** `r` is what a mask built from `keep` selects from `t`: a subsequence of `t`
      holding every occurrence of each row that `keep` accepts and no other row. */
  ghost predicate Selects<T(!new)>(r: seq<T>, t: seq<T>, keep: T -> bool)
  {
    IsSubsequence(r, t) &&
    forall x :: multiset(r)[x] == if keep(x) then multiset(t)[x] else 0
  }

  /** The rows of `t` for which `keep` holds, in their original order. */
  function Where<T(==)>(t: seq<T>, keep: T -> bool): (r: seq<T>)
    ensures |r| <= |t|
    decreases |t|
  {
    if t == [] then []
    else if keep(t[0]) then [t[0]] + Where(t[1..], keep)
    else Where(t[1..], keep)
  }

  /** `Where` is a mask selection: it keeps every occurrence of each accepted row,
      drops every other row, and keeps the original order. */
  lemma {:induction false} WhereSelects<T(!new)>(t: seq<T>, keep: T -> bool)
    ensures Selects(Where(t, keep), t, keep)
    decreases |t|
  {
    if t != [] {
      var rest := Where(t[1..], keep);
      WhereSelects(t[1..], keep);
      assert t == [t[0]] + t[1..];
      if keep(t[0]) {
        assert ([t[0]] + rest)[1..] == rest;
      } else {
        assert rest != [] ==> rest[0] in multiset(rest);
      }
    }
  }

  /** A subsequence never holds a row more often than the sequence it comes from. */
  lemma {:induction false} SubsequenceMultiset<T(!new)>(r: seq<T>, t: seq<T>)
    requires IsSubsequence(r, t)
    ensures multiset(r) <= multiset(t)
    decreases |t|
  {
    if r == [] {
    } else if r[0] == t[0] {
      SubsequenceMultiset(r[1..], t[1..]);
      assert r == [r[0]] + r[1..];
      assert t == [t[0]] + t[1..];
    } else {
      SubsequenceMultiset(r, t[1..]);
      assert t == [t[0]] + t[1..];
    }
  }

  /** `Selects` pins down its result: the only sequence a mask can select is `Where`'s. */
  lemma {:induction false} SelectsUnique<T(!new)>(r: seq<T>, t: seq<T>, keep: T -> bool)
    requires Selects(r, t, keep)
    ensures r == Where(t, keep)
    decreases |t|
  {
    if t == [] {
      assert r == [];
    } else {
      var x := t[0];
      assert t == [x] + t[1..];
      if keep(x) {
        assert multiset(r)[x] > 0;
        assert r != [];
        if r[0] != x {
          SubsequenceMultiset(r, t[1..]);
          assert false;
        }
        assert r == [x] + r[1..];
        SelectsUnique(r[1..], t[1..], keep);
        assert Where(t, keep) == [x] + Where(t[1..], keep);
      } else {
        if r != [] {
          assert r[0] in multiset(r);
        }
        SelectsUnique(r, t[1..], keep);
      }
    }
  }

  /** Membership in a selection: a row is kept exactly when it was present and accepted. */
  lemma SelectsMembership<T(!new)>(r: seq<T>, t: seq<T>, keep: T -> bool)
    requires Selects(r, t, keep)
    ensures forall x :: x in r <==> x in t && keep(x)
  {
    forall x ensures x in r <==> x in t && keep(x) {
      assert x in r <==> x in multiset(r);
      assert x in t <==> x in multiset(t);
    }
  }

  /** Two masks that agree on every row select the same rows. */
  lemma {:induction false} WhereAgreeing<T(!new)>(t: seq<T>, p: T -> bool, q: T -> bool)
    requires forall x :: p(x) == q(x)
    ensures Where(t, p) == Where(t, q)
    decreases |t|
  {
    if t != [] {
      WhereAgreeing(t[1..], p, q);
    }
  }

  /** The mask that accepts what both `p` and `q` accept, `p & q` on two masks. */
  function Both<T>(p: T -> bool, q: T -> bool): T -> bool
  {
    x => p(x) && q(x)
  }

  /** Selecting twice with `p` then `q` is selecting once with their conjunction. */
  lemma {:induction false} WhereWhere<T(!new)>(t: seq<T>, p: T -> bool, q: T -> bool)
    ensures Where(Where(t, p), q) == Where(t, Both(p, q))
    decreases |t|
  {
    if t != [] {
      WhereWhere(t[1..], p, q);
      var rest := Where(t[1..], p);
      if p(t[0]) {
        assert Where(t, p) == [t[0]] + rest;
        assert ([t[0]] + rest)[1..] == rest;
      }
    }
  }

  /** A mask applied to its own selection removes nothing more. */
  lemma WhereIdempotent<T(!new)>(t: seq<T>, keep: T -> bool)
    ensures Where(Where(t, keep), keep) == Where(t, keep)
  {
    WhereWhere(t, keep, keep);
    WhereAgreeing(t, Both(keep, keep), keep);
  }

  /** Two masks applied one after the other give the same rows in either order. */
  lemma WhereCommutes<T(!new)>(t: seq<T>, p: T -> bool, q: T -> bool)
    ensures Where(Where(t, p), q) == Where(Where(t, q), p)
  {
    WhereWhere(t, p, q);
    WhereWhere(t, q, p);
    WhereAgreeing(t, Both(p, q), Both(q, p));
  }

  /** Selection distributes over concatenation of tables. */
  lemma {:induction false} WhereAppend<T(!new)>(a: seq<T>, b: seq<T>, keep: T -> bool)
    ensures Where(a + b, keep) == Where(a, keep) + Where(b, keep)
    decreases |a|
  {
    if a != [] {
      assert (a + b)[1..] == a[1..] + b;
      WhereAppend(a[1..], b, keep);
    } else {
      assert a + b == b;
    }
  }

  /** A mask every row passes returns the table unchanged. */
  lemma {:induction false} WhereAllKept<T(!new)>(t: seq<T>, keep: T -> bool)
    requires forall i :: 0 <= i < |t| ==> keep(t[i])
    ensures Where(t, keep) == t
    decreases |t|
  {
    if t != [] {
      assert keep(t[0]);
      WhereAllKept(t[1..], keep);
      assert t == [t[0]] + t[1..];
    }
  }

  /** One failing row among passing ones: the mask drops exactly that row. */
  lemma WhereDropsOnlyFailing<T(!new)>(before: seq<T>, x: T, after: seq<T>, keep: T -> bool)
    requires forall i :: 0 <= i < |before| ==> keep(before[i])
    requires forall i :: 0 <= i < |after| ==> keep(after[i])
    requires !keep(x)
    ensures Where(before + [x] + after, keep) == before + after
  {
    assert Where([x], keep) == [] by {
      assert [x][0] == x && [x][1..] == [];
    }
    calc {
      Where(before + [x] + after, keep);
      == { WhereAppend(before + [x], after, keep); }
      Where(before + [x], keep) + Where(after, keep);
      == { WhereAppend(before, [x], keep); }
      Where(before, keep) + Where([x], keep) + Where(after, keep);
      == { WhereAllKept(before, keep); WhereAllKept(after, keep); }
      before + [] + after;
      == { assert before + [] == before; }
      before + after;
    }
  }
}
