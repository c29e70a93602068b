/**
 * The unique-slug allocation loop shared by blog posts (`generate_unique_slug`)
 * and biolink profiles (`safe_get_or_create_profile`): starting from a base
 * slug, try `base`, `base-1`, `base-2`, ... and keep the first one no row holds.
 * The database query "does a row with this slug exist" is the set `taken`.
 */
module Slugs {
  import opened Text

  /** The i-th slug the loop tries: the base itself, then `f"{base}-{i}"`. */
  function Candidate(base: string, i: nat): string {
    if i == 0 then base else base + "-" + NatToString(i)
  }

  /** The first n candidates. */
  ghost function Candidates(base: string, n: nat): set<string> {
    set i | 0 <= i < n :: Candidate(base, i)
  }

  /** No two attempts of the loop try the same slug. */
  lemma CandidateInjective(base: string, i: nat, j: nat)
    requires Candidate(base, i) == Candidate(base, j)
    ensures i == j
  {
    if i != 0 && j != 0 {
      var n := |base| + 1;
      assert Candidate(base, i)[n..] == NatToString(i);
      assert Candidate(base, j)[n..] == NatToString(j);
      NatToStringInjective(i, j);
    } else {
      assert |Candidate(base, i)| == |Candidate(base, j)|;
    }
  }

  /** `slug` is what the loop returns: free, and every earlier candidate taken. */
  ghost predicate FirstFree(taken: set<string>, base: string, slug: string) {
    slug !in taken &&
    exists k: nat :: slug == Candidate(base, k) && forall i: nat :: i < k ==> Candidate(base, i) in taken
  }

  /** The loop. It only reads `taken`, and its result depends on nothing but `taken` and `base`. */
  method UniqueSlug(taken: set<string>, base: string) returns (slug: string)
    ensures FirstFree(taken, base, slug)
    ensures base !in taken ==> slug == base
    ensures base in taken ==> exists k: nat ::
      1 <= k && slug == base + "-" + NatToString(k) &&
      forall j: nat :: 1 <= j < k ==> base + "-" + NatToString(j) in taken
  {
    slug := base;
    var counter: nat := 1;
    ghost var tried: set<string> := {};
    while slug in taken
      invariant counter >= 1
      invariant slug == Candidate(base, counter - 1)
      invariant tried == Candidates(base, counter - 1)
      invariant tried <= taken
      invariant slug !in tried
      decreases taken - tried
    {
      tried := tried + {slug};
      slug := base + "-" + NatToString(counter);
      counter := counter + 1;
      assert slug == Candidate(base, counter - 1);
      assert tried == Candidates(base, counter - 1) by {
        forall x | x in Candidates(base, counter - 1) ensures x in tried {
          var i: nat :| i < counter - 1 && x == Candidate(base, i);
          if i < counter - 2 { assert x in Candidates(base, counter - 2); }
        }
      }
      forall i: nat | i < counter - 1 && Candidate(base, i) == slug ensures false {
        CandidateInjective(base, i, counter - 1);
      }
    }
    assert forall i: nat :: i < counter - 1 ==> Candidate(base, i) in taken by {
      forall i: nat | i < counter - 1 ensures Candidate(base, i) in taken {
        assert Candidate(base, i) in Candidates(base, counter - 1);
      }
    }
    if base in taken {
      assert counter - 1 != 0;
      forall j: nat | 1 <= j < counter - 1 ensures base + "-" + NatToString(j) in taken {
        assert Candidate(base, j) in taken;
      }
    }
  }

  /** The loop's result is determined: two slugs that are both the first free candidate coincide. */
  lemma FirstFreeUnique(taken: set<string>, base: string, a: string, b: string)
    requires FirstFree(taken, base, a) && FirstFree(taken, base, b)
    ensures a == b
  {
    var ka: nat :| a == Candidate(base, ka) && forall i: nat :: i < ka ==> Candidate(base, i) in taken;
    var kb: nat :| b == Candidate(base, kb) && forall i: nat :: i < kb ==> Candidate(base, i) in taken;
    assert ka < kb ==> Candidate(base, ka) in taken;
    assert kb < ka ==> Candidate(base, kb) in taken;
  }
}
