/**
 * The second step of `get_leaderboard` (app.py:67-72):
 * `sorted(entries, key=lambda x: x["score"], reverse=True)`. Python's sort is
 * stable even with `reverse=True`, so entries with equal scores keep their
 * input order. It is modelled as a stable insertion sort.
 */
module Ranking {
  import opened Records

  /** Scores never increase along the sequence. */
  predicate Descending(s: seq<Entry>)
  {
    forall i, j :: 0 <= i < j < |s| ==> s[i].score >= s[j].score
  }

  /** The entries of `s` whose score is `k`, in their order in `s`. */
  function ScoreClass(s: seq<Entry>, k: int): seq<Entry>
  {
    if s == [] then []
    else (if s[0].score == k then [s[0]] else []) + ScoreClass(s[1..], k)
  }

  /**
   * Puts `x` in front of the first entry whose score is not larger, so that
   * `x` stays ahead of every entry of `t` with the same score.
   */
  function Insert(x: Entry, t: seq<Entry>): (r: seq<Entry>)
    ensures |r| == |t| + 1
    ensures multiset(r) == multiset(t) + multiset{x}
    ensures r[0] == x || (t != [] && r[0] == t[0])
  {
    if t == [] || t[0].score <= x.score then [x] + t
    else
      assert t == [t[0]] + t[1..];
      [t[0]] + Insert(x, t[1..])
  }

  /** Inserting into a descending sequence keeps it descending. */
  lemma {:induction false} InsertDescending(x: Entry, t: seq<Entry>)
    requires Descending(t)
    ensures Descending(Insert(x, t))
  {
    if t != [] && t[0].score > x.score {
      var rest := Insert(x, t[1..]);
      InsertDescending(x, t[1..]);
      var r := [t[0]] + rest;
      assert rest[0].score <= t[0].score;
      forall j | 0 < j < |r| ensures r[0].score >= r[j].score {
        assert r[j] == rest[j - 1];
      }
      forall i, j | 0 < i < j < |r| ensures r[i].score >= r[j].score {
        assert r[i] == rest[i - 1] && r[j] == rest[j - 1];
      }
    }
  }

  /** The stable descending sort: sorted, and a permutation of its input. */
  function SortByScoreDesc(s: seq<Entry>): (r: seq<Entry>)
    ensures Descending(r)
    ensures multiset(r) == multiset(s)
  {
    if s == [] then []
    else
      assert s == [s[0]] + s[1..];
      InsertDescending(s[0], SortByScoreDesc(s[1..]));
      Insert(s[0], SortByScoreDesc(s[1..]))
  }

  lemma {:induction false} InsertScoreClass(x: Entry, t: seq<Entry>, k: int)
    ensures ScoreClass(Insert(x, t), k) ==
      (if x.score == k then [x] else []) + ScoreClass(t, k)
  {
    if t == [] || t[0].score <= x.score {
      assert ([x] + t)[1..] == t;
    } else {
      var rest := Insert(x, t[1..]);
      var r := [t[0]] + rest;
      assert r[0] == t[0] && r[1..] == rest;
      InsertScoreClass(x, t[1..], k);
      var head := if t[0].score == k then [t[0]] else [];
      var mid := if x.score == k then [x] else [];
      assert ScoreClass(r, k) == head + ScoreClass(rest, k);
      assert ScoreClass(rest, k) == mid + ScoreClass(t[1..], k);
      assert ScoreClass(t, k) == head + ScoreClass(t[1..], k);
      if x.score == k {
        assert head == [];
      } else {
        assert mid == [];
      }
    }
  }

  /**
   * Stability: for every score value the sort keeps the entries with that
   * score in exactly their input order.
   */
  lemma {:induction false} SortKeepsScoreClasses(s: seq<Entry>, k: int)
    ensures ScoreClass(SortByScoreDesc(s), k) == ScoreClass(s, k)
  {
    if s != [] {
      InsertScoreClass(s[0], SortByScoreDesc(s[1..]), k);
      SortKeepsScoreClasses(s[1..], k);
    }
  }

  /** A score occurs in `s` exactly when its class is not empty. */
  lemma {:induction false} ScoreClassEmpty(s: seq<Entry>, k: int)
    ensures ScoreClass(s, k) == [] <==> forall i :: 0 <= i < |s| ==> s[i].score != k
  {
    if s != [] {
      ScoreClassEmpty(s[1..], k);
      assert forall i :: 1 <= i < |s| ==> s[i] == s[1..][i - 1];
    }
  }

  /**
   * Being descending and keeping every score class pins the result down:
   * two sequences with both properties are equal.
   */
  lemma {:induction false} StableOrderUnique(a: seq<Entry>, b: seq<Entry>)
    requires Descending(a) && Descending(b)
    requires forall k :: ScoreClass(a, k) == ScoreClass(b, k)
    ensures a == b
    decreases |a|
  {
    if a == [] || b == [] {
      if a != [] {
        ScoreClassEmpty(b, a[0].score);
      } else if b != [] {
        ScoreClassEmpty(a, b[0].score);
      }
    } else {
      ScoreClassEmpty(a, b[0].score);
      ScoreClassEmpty(b, a[0].score);
      assert a[0].score == b[0].score;
      var k := a[0].score;
      assert ScoreClass(a, k) == [a[0]] + ScoreClass(a[1..], k);
      assert ScoreClass(b, k) == [b[0]] + ScoreClass(b[1..], k);
      assert a[0] == ScoreClass(a, k)[0] == ScoreClass(b, k)[0] == b[0];
      forall k' ensures ScoreClass(a[1..], k') == ScoreClass(b[1..], k') {
        var ca, cb := ScoreClass(a, k'), ScoreClass(b, k');
        assert ca == cb;
        if k == k' {
          assert ca == [a[0]] + ScoreClass(a[1..], k');
          assert cb == [a[0]] + ScoreClass(b[1..], k');
          assert ca[1..] == ScoreClass(a[1..], k');
          assert cb[1..] == ScoreClass(b[1..], k');
        } else {
          assert ca == [] + ScoreClass(a[1..], k');
          assert cb == [] + ScoreClass(b[1..], k');
          assert ca == ScoreClass(a[1..], k');
          assert cb == ScoreClass(b[1..], k');
        }
      }
      StableOrderUnique(a[1..], b[1..]);
      assert a == [a[0]] + a[1..] && b == [b[0]] + b[1..];
    }
  }

  /**
   * SortByScoreDesc is exactly Python's stable `sorted(..., reverse=True)`:
   * any descending sequence that keeps every score class of `s` is its result.
   */
  lemma StableSortIsUnique(s: seq<Entry>, r: seq<Entry>)
    requires Descending(r)
    requires forall k :: ScoreClass(r, k) == ScoreClass(s, k)
    ensures r == SortByScoreDesc(s)
  {
    forall k ensures ScoreClass(r, k) == ScoreClass(SortByScoreDesc(s), k) {
      SortKeepsScoreClasses(s, k);
    }
    StableOrderUnique(r, SortByScoreDesc(s));
  }

  /** `x` stands somewhere before `y` in `s`. */
  predicate Precedes(s: seq<Entry>, x: Entry, y: Entry)
  {
    exists p, q :: 0 <= p < q < |s| && s[p] == x && s[q] == y
  }

  /** The class of `k` holds exactly the entries of `s` that score `k`. */
  lemma {:induction false} ScoreClassMembers(s: seq<Entry>, k: int, e: Entry)
    ensures e in ScoreClass(s, k) <==> e in s && e.score == k
  {
    if s != [] {
      ScoreClassMembers(s[1..], k, e);
      assert s == [s[0]] + s[1..];
    }
  }

  /** Any two positions p < q of `s` witness `Precedes`. */
  lemma PrecedesAt(s: seq<Entry>, p: int, q: int)
    requires 0 <= p < q < |s|
    ensures Precedes(s, s[p], s[q])
  {
  }

  /** Two entries of one score class appear in the class in their order in `s`. */
  lemma {:induction false} PrecedesInClass(s: seq<Entry>, k: int, i: int, j: int)
    requires 0 <= i < j < |s| && s[i].score == k && s[j].score == k
    ensures Precedes(ScoreClass(s, k), s[i], s[j])
  {
    var c := ScoreClass(s, k);
    var tail := s[1..];
    var c' := ScoreClass(tail, k);
    var head := if s[0].score == k then [s[0]] else [];
    assert c == head + c';
    assert tail[j - 1] == s[j];
    if i == 0 {
      ScoreClassMembers(tail, k, s[j]);
      var q :| 0 <= q < |c'| && c'[q] == s[j];
      assert c == [s[0]] + c';
      assert c[q + 1] == s[j];
      PrecedesAt(c, 0, q + 1);
    } else {
      assert tail[i - 1] == s[i];
      PrecedesInClass(tail, k, i - 1, j - 1);
      var p, q :| 0 <= p < q < |c'| && c'[p] == s[i] && c'[q] == s[j];
      var d := |head|;
      assert c[p + d] == s[i] && c[q + d] == s[j];
      PrecedesAt(c, p + d, q + d);
    }
  }

  /** Order within a score class is order in `s`. */
  lemma {:induction false} PrecedesFromClass(s: seq<Entry>, k: int, x: Entry, y: Entry)
    requires Precedes(ScoreClass(s, k), x, y)
    ensures Precedes(s, x, y)
  {
    var c := ScoreClass(s, k);
    var c' := ScoreClass(s[1..], k);
    var p, q :| 0 <= p < q < |c| && c[p] == x && c[q] == y;
    if s[0].score == k {
      assert c == [s[0]] + c';
      if p == 0 {
        assert c'[q - 1] == y;
        ScoreClassMembers(s[1..], k, y);
        var m :| 0 <= m < |s[1..]| && s[1..][m] == y;
        assert s[0] == x && s[m + 1] == y;
      } else {
        assert c'[p - 1] == x && c'[q - 1] == y;
        PrecedesFromClass(s[1..], k, x, y);
        var p', q' :| 0 <= p' < q' < |s[1..]| && s[1..][p'] == x && s[1..][q'] == y;
        assert s[p' + 1] == x && s[q' + 1] == y;
      }
    } else {
      assert c == [] + c';
      PrecedesFromClass(s[1..], k, x, y);
      var p', q' :| 0 <= p' < q' < |s[1..]| && s[1..][p'] == x && s[1..][q'] == y;
      assert s[p' + 1] == x && s[q' + 1] == y;
    }
  }

  /**
   * Ties keep their input order: two entries of equal score that the sort
   * puts at i < j stood in the same order in its input.
   */
  lemma SortKeepsTieOrder(s: seq<Entry>, i: int, j: int)
    requires 0 <= i < j < |SortByScoreDesc(s)|
    requires SortByScoreDesc(s)[i].score == SortByScoreDesc(s)[j].score
    ensures Precedes(s, SortByScoreDesc(s)[i], SortByScoreDesc(s)[j])
  {
    var r := SortByScoreDesc(s);
    var k := r[i].score;
    PrecedesInClass(r, k, i, j);
    SortKeepsScoreClasses(s, k);
    PrecedesFromClass(s, k, r[i], r[j]);
  }
}
