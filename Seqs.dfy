/** Sequence operations over an element test, used for line-by-line
    rewrites: the elements that pass or fail a test, whether any passes,
    and the replacement of the first passing element. */
module Seqs {

  /** The elements `e` with `p(e) == want`, in order */
  function Select<T>(s: seq<T>, p: T -> bool, want: bool): seq<T>
  {
    if s == [] then []
    else (if p(s[0]) == want then [s[0]] else []) + Select(s[1..], p, want)
  }

  /** Some element passes the test. */
  predicate AnyOf<T>(s: seq<T>, p: T -> bool)
  {
    s != [] && (p(s[0]) || AnyOf(s[1..], p))
  }

  /** The first element passing `p` becomes `x` (unless `done` says that
      already happened) and every later passing element is dropped. */
  function ReplaceFirst<T>(s: seq<T>, p: T -> bool, x: T, done: bool): seq<T>
  {
    if s == [] then []
    else if p(s[0]) then (if done then [] else [x]) + ReplaceFirst(s[1..], p, x, true)
    else [s[0]] + ReplaceFirst(s[1..], p, x, done)
  }

  lemma {:induction false} AnyOfMeans<T>(s: seq<T>, p: T -> bool)
    ensures AnyOf(s, p) <==> exists i :: 0 <= i < |s| && p(s[i])
  {
    if s != [] {
      AnyOfMeans(s[1..], p);
      if AnyOf(s[1..], p) {
        var i :| 0 <= i < |s[1..]| && p(s[1..][i]);
        assert p(s[i + 1]);
      }
      if exists i :: 0 <= i < |s| && p(s[i]) {
        var i :| 0 <= i < |s| && p(s[i]);
        if i > 0 {
          assert s[1..][i - 1] == s[i];
        }
      }
    }
  }

  lemma {:induction false} SelectPassingEmpty<T>(s: seq<T>, p: T -> bool)
    ensures Select(s, p, true) == [] <==> !AnyOf(s, p)
  {
    if s != [] {
      SelectPassingEmpty(s[1..], p);
    }
  }

  lemma {:induction false} SelectAll<T>(s: seq<T>, p: T -> bool)
    requires !AnyOf(s, p)
    ensures Select(s, p, false) == s
  {
    if s != [] {
      SelectAll(s[1..], p);
    }
  }

  /** A one-element sequence keeps its element exactly when it matches. */
  lemma SelectOne<T>(x: T, p: T -> bool, want: bool)
    ensures Select([x], p, want) == (if p(x) == want then [x] else [])
  {
    assert [x][1..] == [];
  }

  lemma {:induction false} SelectAppend<T>(a: seq<T>, b: seq<T>, p: T -> bool, want: bool)
    ensures Select(a + b, p, want) == Select(a, p, want) + Select(b, p, want)
  {
    if a == [] {
      assert a + b == b;
    } else {
      assert (a + b)[0] == a[0] && (a + b)[1..] == a[1..] + b;
      SelectAppend(a[1..], b, p, want);
    }
  }

  /** Selecting from one more element of a sequence */
  lemma SelectSnoc<T>(s: seq<T>, i: nat, p: T -> bool, want: bool)
    requires i < |s|
    ensures Select(s[..i + 1], p, want) == Select(s[..i], p, want) + (if p(s[i]) == want then [s[i]] else [])
  {
    assert s[..i + 1] == s[..i] + [s[i]];
    SelectAppend(s[..i], [s[i]], p, want);
    SelectOne(s[i], p, want);
  }

  lemma {:induction false} AnyOfAppend<T>(a: seq<T>, b: seq<T>, p: T -> bool)
    ensures AnyOf(a + b, p) == (AnyOf(a, p) || AnyOf(b, p))
  {
    if a == [] {
      assert a + b == b;
    } else {
      assert (a + b)[0] == a[0] && (a + b)[1..] == a[1..] + b;
      AnyOfAppend(a[1..], b, p);
    }
  }

  /** The elements failing the test come through the replacement in order. */
  lemma {:induction false} ReplaceFirstKeepsOthers<T>(s: seq<T>, p: T -> bool, x: T, done: bool)
    requires p(x)
    ensures Select(ReplaceFirst(s, p, x, done), p, false) == Select(s, p, false)
  {
    if s != [] {
      var rest := ReplaceFirst(s[1..], p, x, p(s[0]) || done);
      ReplaceFirstKeepsOthers(s[1..], p, x, p(s[0]) || done);
      if p(s[0]) {
        if done {
          assert [] + rest == rest;
        } else {
          SelectAppend([x], rest, p, false);
        }
      } else {
        SelectAppend([s[0]], rest, p, false);
      }
    }
  }

  /** The replacement passes the test once when a passing element was seen
      and the replacement was not yet done, and no other element passes. */
  lemma {:induction false} ReplaceFirstPassing<T>(s: seq<T>, p: T -> bool, x: T, done: bool)
    requires p(x)
    ensures Select(ReplaceFirst(s, p, x, done), p, true)
         == (if !done && AnyOf(s, p) then [x] else [])
  {
    if s != [] {
      var rest := ReplaceFirst(s[1..], p, x, p(s[0]) || done);
      ReplaceFirstPassing(s[1..], p, x, p(s[0]) || done);
      if p(s[0]) {
        if done {
          assert [] + rest == rest;
        } else {
          SelectAppend([x], rest, p, true);
        }
      } else {
        SelectAppend([s[0]], rest, p, true);
      }
    }
  }

  /** A second test that no passing element and not `x` meets holds of the
      replacement's elements exactly when it holds of the original's. */
  lemma {:induction false} ReplaceFirstKeepsAny<T>(s: seq<T>, p: T -> bool, x: T, done: bool, q: T -> bool)
    requires !q(x)
    requires forall e :: p(e) ==> !q(e)
    ensures AnyOf(ReplaceFirst(s, p, x, done), q) == AnyOf(s, q)
  {
    if s != [] {
      var rest := ReplaceFirst(s[1..], p, x, p(s[0]) || done);
      ReplaceFirstKeepsAny(s[1..], p, x, p(s[0]) || done, q);
      if p(s[0]) {
        if done {
          assert [] + rest == rest;
        } else {
          AnyOfAppend([x], rest, q);
        }
      } else {
        AnyOfAppend([s[0]], rest, q);
      }
    }
  }

  /** Once the replacement is done, only the failing elements remain. */
  lemma {:induction false} ReplaceFirstDone<T>(s: seq<T>, p: T -> bool, x: T)
    ensures ReplaceFirst(s, p, x, true) == Select(s, p, false)
  {
    if s != [] {
      ReplaceFirstDone(s[1..], p, x);
    }
  }

  /** Without a passing element nothing changes. */
  lemma {:induction false} ReplaceFirstNone<T>(s: seq<T>, p: T -> bool, x: T, done: bool)
    requires !AnyOf(s, p)
    ensures ReplaceFirst(s, p, x, done) == s
  {
    if s != [] {
      ReplaceFirstNone(s[1..], p, x, done);
    }
  }

  /** A sequence whose only passing element is `x` is its own replacement. */
  lemma {:induction false} ReplaceFirstFixed<T>(s: seq<T>, p: T -> bool, x: T)
    requires Select(s, p, true) == [x]
    ensures ReplaceFirst(s, p, x, false) == s
  {
    if p(s[0]) {
      var r := Select(s[1..], p, true);
      assert [s[0]] + r == [x];
      assert ([s[0]] + r)[0] == s[0] && |[s[0]] + r| == 1 + |r|;
      SelectPassingEmpty(s[1..], p);
      ReplaceFirstNone(s[1..], p, x, true);
    } else {
      ReplaceFirstFixed(s[1..], p, x);
    }
  }

  /** The first passing element, at index k, is replaced where it stands. */
  lemma {:induction false} ReplaceFirstInPlace<T>(s: seq<T>, p: T -> bool, x: T, k: nat)
    requires k < |s| && p(s[k])
    requires forall j :: 0 <= j < k ==> !p(s[j])
    ensures ReplaceFirst(s, p, x, false) == s[..k] + [x] + Select(s[k + 1..], p, false)
  {
    if k == 0 {
      ReplaceFirstDone(s[1..], p, x);
    } else {
      ReplaceFirstInPlace(s[1..], p, x, k - 1);
      assert s[1..][..k - 1] == s[1..k] && s[1..][k..] == s[k + 1..];
      assert [s[0]] + s[1..k] == s[..k];
    }
  }

  lemma {:induction false} SelectMember<T>(s: seq<T>, p: T -> bool, want: bool, x: T)
    ensures x in Select(s, p, want) <==> x in s && p(x) == want
  {
    if s != [] {
      SelectMember(s[1..], p, want, x);
      assert s == [s[0]] + s[1..];
    }
  }
}
