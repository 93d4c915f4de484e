/**
 * The per-frame label array of a labelling session: one small code per
 * frame, the shape a committed labelling has, and the two linear searches
 * the edit handlers use to find the boundary that matches a frame.
 */
module Labels {
  import opened Wrappers

  const Unlabeled: int := 0
  const Start: int := 1
  const Pending: int := 2
  const Inner: int := 3
  const End: int := -1

  /** A code that may appear in a labelling with no pending start. */
  predicate IsCommittedCode(c: int) {
    c == Unlabeled || c == Start || c == Inner || c == End
  }

  /** Codes that must be followed by Inner or End. */
  predicate Opens(c: int) { c == Start || c == Inner }

  /** Codes that must be preceded by Start or Inner. */
  predicate Closes(c: int) { c == Inner || c == End }

  /**
   * s is a word of the regular language (0 | 1 3* -1)*. That language is
   * local: a word belongs to it exactly when every letter is one of the
   * four committed codes, it does not begin with 3 or -1, it does not end
   * with 1 or 3, and a letter opens (is 1 or 3) exactly when the next one
   * closes (is 3 or -1).
   */
  predicate WellFormed(s: seq<int>) {
    && (forall i :: 0 <= i < |s| ==> IsCommittedCode(s[i]))
    && (|s| > 0 ==> !Closes(s[0]) && !Opens(s[|s| - 1]))
    && (forall i :: 0 <= i < |s| - 1 ==> (Opens(s[i]) <==> Closes(s[i + 1])))
  }

  /** The slice assignment s[lo:hi] = c. */
  function Fill(s: seq<int>, lo: int, hi: int, c: int): (r: seq<int>)
    ensures |r| == |s|
    ensures forall i :: 0 <= i < |s| && lo <= i < hi ==> r[i] == c
    ensures forall i :: 0 <= i < |s| && !(lo <= i < hi) ==> r[i] == s[i]
    ensures lo >= hi ==> r == s
  {
    seq(|s|, i requires 0 <= i < |s| => if lo <= i < hi then c else s[i])
  }

  /**
   * Closing the pending interval at e: Start at b, End at e, Inner strictly
   * between (labels[b] = 1; labels[e] = -1; labels[b+1:e] = 3).
   */
  function Commit(s: seq<int>, b: nat, e: nat): (r: seq<int>)
    requires b < e < |s|
    ensures |r| == |s| && r[b] == Start && r[e] == End
    ensures forall i :: b < i < e ==> r[i] == Inner
    ensures forall i :: 0 <= i < |s| && !(b <= i <= e) ==> r[i] == s[i]
  {
    Fill(s[b := Start][e := End], b + 1, e, Inner)
  }

  /** Number of frames carrying code c. */
  function Count(s: seq<int>, c: int): nat {
    multiset(s)[c]
  }

  /** np.where(s[:p] == c)[0][-1]: the last index before p holding c. */
  function LastBefore(s: seq<int>, p: nat, c: int): (r: Option<nat>)
    requires p <= |s|
    ensures r.Some? ==> r.value < p && s[r.value] == c
    ensures r.Some? ==> forall j :: r.value < j < p ==> s[j] != c
    ensures r.None? ==> forall j :: 0 <= j < p ==> s[j] != c
    decreases p
  {
    if p == 0 then None
    else if s[p - 1] == c then Some(p - 1)
    else LastBefore(s, p - 1, c)
  }

  /** np.where(s[p:] == c)[0][0] + p: the first index at or after p holding c. */
  function FirstFrom(s: seq<int>, p: nat, c: int): (r: Option<nat>)
    ensures r.Some? ==> p <= r.value < |s| && s[r.value] == c
    ensures r.Some? ==> forall j :: p <= j < r.value ==> s[j] != c
    ensures r.None? ==> forall j :: p <= j < |s| ==> s[j] != c
    decreases |s| - p
  {
    if p >= |s| then None
    else if s[p] == c then Some(p)
    else FirstFrom(s, p + 1, c)
  }

  /** The backward search returns k when k holds c and nothing in (k, p) does. */
  lemma {:induction false} LastBeforeIs(s: seq<int>, p: nat, c: int, k: nat)
    requires k < p <= |s| && s[k] == c
    requires forall j :: k < j < p ==> s[j] != c
    ensures LastBefore(s, p, c) == Some(k)
    decreases p
  {
    if p - 1 != k {
      LastBeforeIs(s, p - 1, c, k);
    }
  }

  /** Only the frames before p decide the backward search. */
  lemma LastBeforePrefix(s: seq<int>, t: seq<int>, p: nat, c: int)
    requires p <= |s| && p <= |t| && s[..p] == t[..p]
    ensures LastBefore(s, p, c) == LastBefore(t, p, c)
  {
    assert forall j :: 0 <= j < p ==> s[j] == s[..p][j] == t[..p][j] == t[j];
  }

  /** The scan behind np.where(a[:p] == c)[0]: it keeps the last hit. */
  method FindLastBefore(a: array<int>, p: nat, c: int) returns (r: Option<nat>)
    requires p <= a.Length
    ensures r == LastBefore(a[..], p, c)
  {
    r := None;
    var i := 0;
    while i < p
      invariant 0 <= i <= p
      invariant r == LastBefore(a[..], i, c)
    {
      if a[i] == c {
        r := Some(i);
      }
      i := i + 1;
    }
  }

  /** The scan behind np.where(a[p:] == c)[0]: it stops at the first hit. */
  method FindFirstFrom(a: array<int>, p: nat, c: int) returns (r: Option<nat>)
    requires p <= a.Length
    ensures r == FirstFrom(a[..], p, c)
  {
    var i := p;
    while i < a.Length && a[i] != c
      invariant p <= i <= a.Length
      invariant FirstFrom(a[..], i, c) == FirstFrom(a[..], p, c)
    {
      i := i + 1;
    }
    r := if i < a.Length then Some(i) else None;
  }

  /** np.copy: a fresh array with the same frames. */
  method CopyOf(a: array<int>) returns (b: array<int>)
    ensures fresh(b) && b[..] == a[..]
  {
    b := new int[a.Length];
    var i := 0;
    while i < a.Length
      invariant 0 <= i <= a.Length
      invariant b[..i] == a[..i]
    {
      b[i] := a[i];
      i := i + 1;
    }
    assert b[..a.Length] == b[..] && a[..a.Length] == a[..];
  }

  /** The count np.unique(a, return_counts=True) reports for code c. */
  method CountOf(a: array<int>, c: int) returns (k: nat)
    ensures k == Count(a[..], c)
  {
    k := 0;
    var i := 0;
    while i < a.Length
      invariant 0 <= i <= a.Length
      invariant k == Count(a[..i], c)
    {
      assert a[..i + 1] == a[..i] + [a[i]];
      if a[i] == c {
        k := k + 1;
      }
      i := i + 1;
    }
    assert a[..a.Length] == a[..];
  }

  /**
   * In a well-formed labelling every Inner or End frame has a Start before
   * it, and every frame between that Start and p is Inner: the backward
   * search finds the start of the interval p lies in.
   */
  lemma {:induction false} MatchingStart(s: seq<int>, p: nat)
    requires WellFormed(s) && p < |s| && Closes(s[p])
    ensures LastBefore(s, p, Start).Some?
    ensures forall j :: LastBefore(s, p, Start).value < j < p ==> s[j] == Inner
    decreases p
  {
    assert p > 0 && Opens(s[p - 1]);
    if s[p - 1] != Start {
      MatchingStart(s, p - 1);
    }
  }

  /**
   * In a well-formed labelling every Start or Inner frame has an End after
   * it, and every frame strictly between p and that End is Inner.
   */
  lemma {:induction false} MatchingEnd(s: seq<int>, p: nat)
    requires WellFormed(s) && p < |s| && Opens(s[p])
    ensures FirstFrom(s, p, End).Some?
    ensures p < FirstFrom(s, p, End).value
    ensures forall j :: p < j < FirstFrom(s, p, End).value ==> s[j] == Inner
    decreases |s| - p
  {
    assert p + 1 < |s| && Closes(s[p + 1]);
    if s[p + 1] != End {
      MatchingEnd(s, p + 1);
    }
  }

  /**
   * Over a prefix of a well-formed labelling, Starts outnumber Ends by one
   * exactly when the next frame lies inside an interval (Inner or End).
   */
  lemma {:induction false} PrefixDepth(s: seq<int>, i: nat)
    requires WellFormed(s) && i <= |s|
    ensures Count(s[..i], Start) == Count(s[..i], End) + (if i < |s| && Closes(s[i]) then 1 else 0)
    decreases i
  {
    if i > 0 {
      PrefixDepth(s, i - 1);
      assert s[..i] == s[..i - 1] + [s[i - 1]];
    }
  }

  /** A well-formed labelling has as many Starts as Ends. */
  lemma Balanced(s: seq<int>)
    requires WellFormed(s)
    ensures Count(s, Start) == Count(s, End)
    ensures Start in s <==> End in s
  {
    PrefixDepth(s, |s|);
    assert s[..|s|] == s;
  }

  /**
   * Committing [b, e] (Start at b, Inner strictly between, End at e) over a
   * well-formed labelling whose frames b and e are free keeps it
   * well-formed; complete intervals inside the span are swallowed.
   */
  lemma CommitWellFormed(s: seq<int>, b: nat, e: nat)
    requires WellFormed(s) && b < e < |s| && s[b] == Unlabeled && s[e] == Unlabeled
    ensures WellFormed(Commit(s, b, e))
  {
    var r := Commit(s, b, e);
    forall i | 0 <= i < |r| - 1
      ensures Opens(r[i]) <==> Closes(r[i + 1])
    {
      if i + 1 == b {
        assert !Opens(s[i]);
      } else if i == e {
        assert !Closes(s[i + 1]);
      }
    }
  }

  /**
   * Zeroing [b, e] of a well-formed labelling whose frame b is a Start and
   * whose frame e is an End keeps it well-formed.
   */
  lemma ClearWellFormed(s: seq<int>, b: nat, e: nat)
    requires WellFormed(s) && b <= e < |s| && s[b] == Start && s[e] == End
    ensures WellFormed(Fill(s, b, e + 1, Unlabeled))
  {
    var r := Fill(s, b, e + 1, Unlabeled);
    forall i | 0 <= i < |r| - 1
      ensures Opens(r[i]) <==> Closes(r[i + 1])
    {
      if i + 1 == b {
        assert !Opens(s[i]);
      } else if i == e {
        assert !Closes(s[i + 1]);
      }
    }
  }
}
