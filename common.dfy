/**
 * Values shared by both versions of the podcast-selection pipeline: the
 * failure and result types that stand for `sys.exit` and uncaught Python
 * exceptions, the abstract network, the command-line arguments, and the
 * sequence operations the pipeline is built from (reversal, Python slicing,
 * and "append each element not already present").
 */
module Common {

  datatype Option<T> = None | Some(value: T)

  /** Why a pipeline step stops the program: an HTTP status other than 200
      (the program prints a message and calls `exit(1)`), or a field that
      Python's `int()`, tuple unpacking or indexing rejects (an uncaught
      exception). */
  datatype Failure = Download(status: int) | Malformed(field: string)

  datatype Result<T> = Ok(value: T) | Err(error: Failure) {
    predicate IsFailure() { Err? }
    function PropagateFailure<U>(): Result<U> requires Err? { Err(error) }
    function Extract(): T requires Ok? { value }
  }

  /** The two kinds of HTTP GET the current version issues: one page of the
      day's listing (date as DD/MM/YYYY, page number as text) and the JSON
      record of one audio. */
  datatype Request = ListingPage(date: string, page: string) | AudioPiece(uuid: string)

  /** What `get_page` returns: the status code and the body. */
  datatype Response = Response(status: int, body: string)

  /** The network as seen during one round of polling. */
  type Fetch = Request -> Response

  /** The parsed command line: the date, the inclusive hour window, the seek
      offset of the first podcast, the exclusion entries (already split by
      `parse_my_args`) and the print-only switch. */
  datatype Args = Args(date: string, fromHour: int, toHour: int, startFirst: string,
                       excludes: seq<string>, onlyPrint: bool)

  /** How a run of the re-poll loop ends: nothing new to play (`exit(0)`),
      a failure (`exit(1)` or an uncaught exception), or the model ran out of
      network snapshots (the source would poll again). Each carries the
      number of podcasts done so far. */
  datatype Stop = Finished(doneLast: nat) | Failed(error: Failure, doneLast: nat) | OutOfRounds(doneLast: nat)

  /** Python's `s[::-1]`. */
  function Reversed<T>(s: seq<T>): (r: seq<T>)
    ensures |r| == |s|
    ensures forall i :: 0 <= i < |s| ==> r[i] == s[|s| - 1 - i]
  {
    if |s| == 0 then [] else Reversed(s[1..]) + [s[0]]
  }

  /** Position `i` of the reversal holds position `j` of the original
      when the two are mirrored, `i + j == |s| - 1`. */
  lemma ReversedAt<T>(s: seq<T>, i: nat, j: nat)
    requires i < |s| && i + j == |s| - 1
    ensures Reversed(s)[i] == s[j]
  {
    var k := |s| - 1 - i;
    assert j == k;
    assert Reversed(s)[i] == s[k];
  }

  /** Reversing twice gives back the original, so the reversal loses nothing. */
  lemma {:induction false} ReversedTwice<T>(s: seq<T>)
    ensures Reversed(Reversed(s)) == s
  {
    var r := Reversed(Reversed(s));
    assert |r| == |s|;
    forall i | 0 <= i < |s| ensures r[i] == s[i] {
      assert r[i] == Reversed(s)[|s| - 1 - i];
    }
  }

  /** Reversal keeps every element with its multiplicity. */
  lemma {:induction false} ReversedSameElements<T>(s: seq<T>)
    ensures multiset(Reversed(s)) == multiset(s)
  {
    if |s| > 0 {
      ReversedSameElements(s[1..]);
      assert s == [s[0]] + s[1..];
    }
  }

  /** Python's `s[n:]` for a non-negative `n`: empty once `n` passes the end. */
  function Drop<T>(s: seq<T>, n: nat): (r: seq<T>)
    ensures |r| == if n <= |s| then |s| - n else 0
    ensures forall i :: 0 <= i < |r| ==> r[i] == s[n + i]
  {
    if n <= |s| then s[n..] else []
  }

  predicate NoDup<T(==)>(s: seq<T>) {
    forall i, j :: 0 <= i < j < |s| ==> s[i] != s[j]
  }

  /** `a` is `b` with some elements left out, the rest in their order. */
  predicate IsSubseq<T(==)>(a: seq<T>, b: seq<T>)
    decreases |b|
  {
    if |a| == 0 then true
    else if |b| == 0 then false
    else if a[|a| - 1] == b[|b| - 1] then IsSubseq(a[..|a| - 1], b[..|b| - 1])
    else IsSubseq(a, b[..|b| - 1])
  }

  /** Extending the longer sequence keeps a subsequence a subsequence. */
  lemma {:induction false} IsSubseqSnoc<T>(a: seq<T>, b: seq<T>, x: T)
    requires IsSubseq(a, b)
    ensures IsSubseq(a, b + [x])
    decreases |b|, 1
  {
    if |a| > 0 {
      assert (b + [x])[..|b|] == b;
      if a[|a| - 1] == x {
        IsSubseqDropLast(a, b);
      }
    }
  }

  lemma {:induction false} IsSubseqDropLast<T>(a: seq<T>, b: seq<T>)
    requires |a| > 0 && IsSubseq(a, b)
    ensures IsSubseq(a[..|a| - 1], b)
    decreases |b|, 0
  {
    if |b| > 0 {
      if a[|a| - 1] == b[|b| - 1] {
        IsSubseqSnoc(a[..|a| - 1], b[..|b| - 1], b[|b| - 1]);
        assert b[..|b| - 1] + [b[|b| - 1]] == b;
      } else {
        IsSubseqDropLast(a, b[..|b| - 1]);
        IsSubseqSnoc(a[..|a| - 1], b[..|b| - 1], b[|b| - 1]);
        assert b[..|b| - 1] + [b[|b| - 1]] == b;
      }
    }
  }

  function Flatten<T>(ss: seq<seq<T>>): seq<T> {
    if |ss| == 0 then [] else ss[0] + Flatten(ss[1..])
  }

  /** The pieces `f` gives for each element of `xs`, one after another. */
  function ConcatMap<T, U>(xs: seq<T>, f: T -> seq<U>): seq<U>
    decreases |xs|
  {
    if |xs| == 0 then [] else ConcatMap(xs[..|xs| - 1], f) + f(xs[|xs| - 1])
  }

  /** An element is in the concatenation exactly when it is a piece of one
      of the elements. */
  lemma {:induction false} ConcatMapMembers<T, U>(xs: seq<T>, f: T -> seq<U>)
    ensures forall y :: y in ConcatMap(xs, f) ==> exists i :: 0 <= i < |xs| && y in f(xs[i])
    ensures forall i, y :: 0 <= i < |xs| && y in f(xs[i]) ==> y in ConcatMap(xs, f)
    decreases |xs|
  {
    if |xs| > 0 {
      var init := xs[..|xs| - 1];
      var last := xs[|xs| - 1];
      ConcatMapMembers(init, f);
      assert ConcatMap(xs, f) == ConcatMap(init, f) + f(last);
      forall y | y in ConcatMap(xs, f)
        ensures exists i :: 0 <= i < |xs| && y in f(xs[i])
      {
        if y in ConcatMap(init, f) {
          var i :| 0 <= i < |init| && y in f(init[i]);
          assert xs[i] == init[i];
        } else {
          assert y in f(xs[|xs| - 1]);
        }
      }
      forall i, y | 0 <= i < |xs| && y in f(xs[i])
        ensures y in ConcatMap(xs, f)
      {
        if i < |init| {
          assert xs[i] == init[i];
        }
      }
    }
  }

  /** `f` applied to each element in order; the first element it refuses
      ends the whole with that failure. */
  function MapAll<T, U>(xs: seq<T>, f: T -> Result<U>): (r: Result<seq<U>>)
    ensures r.Ok? ==> (|r.value| == |xs| && forall i :: 0 <= i < |xs| ==> f(xs[i]) == Ok(r.value[i]))
    ensures r.Err? ==>
              exists i :: (0 <= i < |xs| && f(xs[i]) == Err(r.error) && forall j :: 0 <= j < i ==> f(xs[j]).Ok?)
    decreases |xs|
  {
    if |xs| == 0 then Ok([])
    else
      var init := xs[..|xs| - 1];
      assert forall j :: 0 <= j < |init| ==> init[j] == xs[j];
      var head :- MapAll(init, f);
      var y :- f(xs[|xs| - 1]);
      Ok(head + [y])
  }

  /** The whole fails exactly when some element is refused. */
  lemma {:induction false} MapAllFails<T, U>(xs: seq<T>, f: T -> Result<U>)
    ensures MapAll(xs, f).Err? <==> exists i :: 0 <= i < |xs| && f(xs[i]).Err?
    decreases |xs|
  {
    if |xs| > 0 {
      var init := xs[..|xs| - 1];
      MapAllFails(init, f);
      if exists i :: 0 <= i < |init| && f(init[i]).Err? {
        var i :| 0 <= i < |init| && f(init[i]).Err?;
        assert f(xs[i]).Err?;
      }
    }
  }

  /** Once a prefix fails, the whole fails the same way. */
  lemma {:induction false} MapAllPrefixFails<T, U>(xs: seq<T>, n: nat, f: T -> Result<U>)
    requires n <= |xs| && MapAll(xs[..n], f).Err?
    ensures MapAll(xs, f) == MapAll(xs[..n], f)
    decreases |xs|
  {
    if n < |xs| {
      var init := xs[..|xs| - 1];
      assert init[..n] == xs[..n];
      MapAllPrefixFails(init, n, f);
    } else {
      assert xs[..n] == xs;
    }
  }

  /** A prefix that succeeds followed by an element that fails: the whole
      sequence fails with that element's error. */
  lemma MapAllStepFails<T, U>(xs: seq<T>, n: nat, f: T -> Result<U>, head: seq<U>)
    requires n < |xs| && MapAll(xs[..n], f) == Ok(head) && f(xs[n]).Err?
    ensures MapAll(xs, f) == Err(f(xs[n]).error)
  {
    assert xs[..n + 1][..n] == xs[..n];
    MapAllPrefixFails(xs, n + 1, f);
  }

  /** A prefix that succeeds, followed by one more element that succeeds. */
  lemma MapAllSnoc<T, U>(xs: seq<T>, n: nat, f: T -> Result<U>, head: seq<U>, y: U)
    requires n < |xs| && MapAll(xs[..n], f) == Ok(head) && f(xs[n]) == Ok(y)
    ensures MapAll(xs[..n + 1], f) == Ok(head + [y])
  {
    assert xs[..n + 1][..n] == xs[..n];
  }

  /** `acc` followed by every element of `xs` that is in neither `acc` nor an
      earlier position of `xs`: the loop "for x in xs: if x not in acc:
      acc.append(x)" that both deduplication steps of the listing use. */
  function Merge<T(==)>(acc: seq<T>, xs: seq<T>): seq<T>
    decreases |xs|
  {
    if |xs| == 0 then acc
    else
      var m := Merge(acc, xs[..|xs| - 1]);
      if xs[|xs| - 1] in m then m else m + [xs[|xs| - 1]]
  }

  /** The accumulated list is kept, unchanged, as a prefix. */
  lemma {:induction false} MergeExtends<T>(acc: seq<T>, xs: seq<T>)
    ensures |acc| <= |Merge(acc, xs)| && Merge(acc, xs)[..|acc|] == acc
    decreases |xs|
  {
    if |xs| > 0 {
      MergeExtends(acc, xs[..|xs| - 1]);
    }
  }

  /** Nothing is lost and nothing is invented. */
  lemma {:induction false} MergeElements<T>(acc: seq<T>, xs: seq<T>)
    ensures forall x :: x in Merge(acc, xs) <==> x in acc || x in xs
    decreases |xs|
  {
    if |xs| > 0 {
      var init := xs[..|xs| - 1];
      MergeElements(acc, init);
      assert xs == init + [xs[|xs| - 1]];
    }
  }

  /** Starting from a duplicate-free list, the result is duplicate-free. */
  lemma {:induction false} MergeNoDup<T>(acc: seq<T>, xs: seq<T>)
    requires NoDup(acc)
    ensures NoDup(Merge(acc, xs))
    decreases |xs|
  {
    if |xs| > 0 {
      MergeNoDup(acc, xs[..|xs| - 1]);
    }
  }

  /** Merging a concatenation is merging its two parts one after the other. */
  lemma {:induction false} MergeConcat<T>(acc: seq<T>, a: seq<T>, b: seq<T>)
    ensures Merge(acc, a + b) == Merge(Merge(acc, a), b)
    decreases |b|
  {
    if |b| == 0 {
      assert a + b == a;
    } else {
      var init := b[..|b| - 1];
      MergeConcat(acc, a, init);
      assert (a + b)[..|a + b| - 1] == a + init;
      assert (a + b)[|a + b| - 1] == b[|b| - 1];
    }
  }

  /** A list that is already duplicate-free (and disjoint from `acc`) is
      appended whole. */
  lemma {:induction false} MergeOfDistinct<T>(acc: seq<T>, xs: seq<T>)
    requires NoDup(acc + xs)
    ensures Merge(acc, xs) == acc + xs
    decreases |xs|
  {
    if |xs| > 0 {
      var init := xs[..|xs| - 1];
      assert acc + xs == (acc + init) + [xs[|xs| - 1]];
      assert NoDup(acc + init) by {
        forall i, j | 0 <= i < j < |acc + init| ensures (acc + init)[i] != (acc + init)[j] {
          assert (acc + init)[i] == (acc + xs)[i] && (acc + init)[j] == (acc + xs)[j];
        }
      }
      MergeOfDistinct(acc, init);
      assert xs[|xs| - 1] !in acc + init by {
        forall k | 0 <= k < |acc + init| ensures (acc + init)[k] != xs[|xs| - 1] {
          assert (acc + init)[k] == (acc + xs)[k];
          assert xs[|xs| - 1] == (acc + xs)[|acc + xs| - 1];
        }
      }
    }
  }

  /** Deduplicating a list before merging it changes nothing: only first
      occurrences matter. */
  lemma {:induction false} MergeAbsorbs<T>(a: seq<T>, c: seq<T>, b: seq<T>)
    ensures Merge(a, Merge(c, b)) == Merge(a, c + b)
    decreases |b|
  {
    if |b| == 0 {
      assert c + b == c;
    } else {
      var init := b[..|b| - 1];
      var y := b[|b| - 1];
      MergeAbsorbs(a, c, init);
      assert c + b == (c + init) + [y];
      assert (c + b)[..|c + b| - 1] == c + init;
      MergeElements(c, init);
      MergeElements(a, c + init);
      var mc := Merge(c, init);
      if y !in mc {
        assert (mc + [y])[..|mc + [y]| - 1] == mc;
      }
    }
  }

  /** Position of the first occurrence of `x`. */
  function IndexOf<T(==)>(s: seq<T>, x: T): (k: nat)
    requires x in s
    ensures k < |s| && s[k] == x && x !in s[..k]
  {
    if s[0] == x then 0 else 1 + IndexOf(s[1..], x)
  }

  lemma {:induction false} IndexOfSnoc<T>(s: seq<T>, y: T, x: T)
    requires x in s
    ensures IndexOf(s + [y], x) == IndexOf(s, x)
  {
    if s[0] != x {
      assert (s + [y])[1..] == s[1..] + [y];
      IndexOfSnoc(s[1..], y, x);
    }
  }

  lemma {:induction false} IndexOfLast<T>(s: seq<T>, y: T)
    requires y !in s
    ensures IndexOf(s + [y], y) == |s|
  {
    if |s| > 0 {
      assert (s + [y])[1..] == s[1..] + [y];
      IndexOfLast(s[1..], y);
    }
  }

  /** Deduplication keeps the elements in the order of their first
      occurrence in the input. */
  lemma {:induction false} MergeFirstSeenOrder<T>(xs: seq<T>)
    ensures forall x :: x in Merge([], xs) ==> x in xs
    ensures forall i, j :: 0 <= i < j < |Merge([], xs)| ==>
              IndexOf(xs, Merge([], xs)[i]) < IndexOf(xs, Merge([], xs)[j])
    decreases |xs|
  {
    MergeElements([], xs);
    if |xs| > 0 {
      var init := xs[..|xs| - 1];
      var y := xs[|xs| - 1];
      assert xs == init + [y];
      MergeFirstSeenOrder(init);
      MergeElements([], init);
      var d := Merge([], init);
      forall x | x in d ensures IndexOf(xs, x) == IndexOf(init, x) {
        IndexOfSnoc(init, y, x);
      }
      if y !in d {
        IndexOfLast(init, y);
      }
    }
  }
}
