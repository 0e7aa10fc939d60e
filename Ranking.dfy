/**
 * The leaderboard order: Python's `list.sort(key=lambda x: (x['score'],
 * x['answered']), reverse=True)`, a stable sort, descending on the pair
 * (score, answered) compared lexicographically. Entries with equal keys keep
 * their original relative order.
 */
module Ranking {
  import opened Protocol

  /** `a` has a strictly greater (score, answered) key than `b`. */
  predicate Above(a: Entry, b: Entry) {
    a.score > b.score || (a.score == b.score && a.answered > b.answered)
  }

  /** Every entry's key is at least the key of every later entry. */
  predicate SortedDesc(s: seq<Entry>) {
    forall i, j :: 0 <= i < j < |s| ==> !Above(s[j], s[i])
  }

  /** The entries of `s` whose key is exactly (score, answered), in order. */
  function WithKey(s: seq<Entry>, score: nat, answered: nat): seq<Entry> {
    if s == [] then []
    else if s[0].score == score && s[0].answered == answered then [s[0]] + WithKey(s[1..], score, answered)
    else WithKey(s[1..], score, answered)
  }

  /** Puts `x` in front of the first entry whose key is not above its own. */
  function Insert(x: Entry, t: seq<Entry>): seq<Entry> {
    if t == [] || !Above(t[0], x) then [x] + t else [t[0]] + Insert(x, t[1..])
  }

  /** Stable descending sort by insertion. */
  function SortDesc(s: seq<Entry>): seq<Entry> {
    if s == [] then [] else Insert(s[0], SortDesc(s[1..]))
  }

  lemma {:induction false} InsertPermutes(x: Entry, t: seq<Entry>)
    ensures multiset(Insert(x, t)) == multiset(t) + multiset{x}
  {
    if t != [] && Above(t[0], x) {
      InsertPermutes(x, t[1..]);
      assert t == [t[0]] + t[1..];
    }
  }

  /** No entry of `s` is above `h`. */
  predicate NoneAbove(s: seq<Entry>, h: Entry) {
    forall i :: 0 <= i < |s| ==> !Above(s[i], h)
  }

  lemma {:induction false} InsertBounded(x: Entry, t: seq<Entry>, h: Entry)
    requires NoneAbove(t, h) && !Above(x, h)
    ensures NoneAbove(Insert(x, t), h)
  {
    if t != [] && Above(t[0], x) {
      InsertBounded(x, t[1..], h);
      assert Insert(x, t) == [t[0]] + Insert(x, t[1..]);
    }
  }

  lemma {:induction false} InsertSorted(x: Entry, t: seq<Entry>)
    requires SortedDesc(t)
    ensures SortedDesc(Insert(x, t))
  {
    if t == [] || !Above(t[0], x) {
      var out := [x] + t;
      forall i, j | 0 <= i < j < |out| ensures !Above(out[j], out[i]) {
        if i == 0 {
          assert out[j] == t[j - 1];
          if j > 1 { assert !Above(t[j - 1], t[0]); }
        } else {
          assert out[i] == t[i - 1] && out[j] == t[j - 1];
        }
      }
    } else {
      var rest := t[1..];
      InsertSorted(x, rest);
      assert NoneAbove(rest, t[0]) by {
        forall i | 0 <= i < |rest| ensures !Above(rest[i], t[0]) {
          assert rest[i] == t[i + 1];
        }
      }
      InsertBounded(x, rest, t[0]);
      var r := Insert(x, rest);
      var out := [t[0]] + r;
      forall i, j | 0 <= i < j < |out| ensures !Above(out[j], out[i]) {
        if i == 0 { assert out[j] == r[j - 1]; }
        else { assert out[i] == r[i - 1] && out[j] == r[j - 1]; }
      }
    }
  }

  lemma {:induction false} InsertWithKey(x: Entry, t: seq<Entry>, score: nat, answered: nat)
    ensures WithKey(Insert(x, t), score, answered) ==
      (if x.score == score && x.answered == answered then [x] else []) + WithKey(t, score, answered)
  {
    if t == [] || !Above(t[0], x) {
      assert ([x] + t)[1..] == t;
    } else {
      InsertWithKey(x, t[1..], score, answered);
      assert ([t[0]] + Insert(x, t[1..]))[1..] == Insert(x, t[1..]);
    }
  }

  /** The sorted leaderboard is a permutation of its input. */
  lemma {:induction false} SortDescPermutes(s: seq<Entry>)
    ensures multiset(SortDesc(s)) == multiset(s)
  {
    if s != [] {
      SortDescPermutes(s[1..]);
      InsertPermutes(s[0], SortDesc(s[1..]));
      assert s == [s[0]] + s[1..];
    }
  }

  /** The sorted leaderboard is non-increasing in (score, answered). */
  lemma {:induction false} SortDescSorted(s: seq<Entry>)
    ensures SortedDesc(SortDesc(s))
  {
    if s != [] {
      SortDescSorted(s[1..]);
      InsertSorted(s[0], SortDesc(s[1..]));
    }
  }

  /** Stability: among entries with the same key, the sorted leaderboard keeps
      the input order. */
  lemma {:induction false} SortDescStable(s: seq<Entry>, score: nat, answered: nat)
    ensures WithKey(SortDesc(s), score, answered) == WithKey(s, score, answered)
  {
    if s != [] {
      SortDescStable(s[1..], score, answered);
      InsertWithKey(s[0], SortDesc(s[1..]), score, answered);
    }
  }
}
