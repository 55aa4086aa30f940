/** `Vec::dedup`: collapse every run of consecutive equal elements to one. */
module VecDedup {

  predicate NoAdjacentDuplicates<T(==)>(s: seq<T>)
  {
    forall k :: 0 <= k < |s| - 1 ==> s[k] != s[k + 1]
  }

  function Dedup<T(==)>(s: seq<T>): (r: seq<T>)
    ensures |r| <= |s|
    ensures |r| == 0 <==> |s| == 0
    ensures |s| > 0 ==> r[0] == s[0] && r[|r| - 1] == s[|s| - 1]
    ensures NoAdjacentDuplicates(r)
    ensures forall k :: 0 <= k < |r| ==> r[k] in s
    ensures forall k :: 0 <= k < |s| ==> s[k] in r
  {
    if |s| <= 1 then s
    else if s[0] == s[1] then Dedup(s[1..])
    else [s[0]] + Dedup(s[1..])
  }

  /** A list with no adjacent duplicates is left as it is, so deduplicating
      twice is the same as deduplicating once. */
  lemma {:induction false} DedupKeepsDistinctNeighbours<T>(s: seq<T>)
    requires NoAdjacentDuplicates(s)
    ensures Dedup(s) == s
  {
    if |s| > 1 {
      var t := s[1..];
      assert NoAdjacentDuplicates(t) by {
        forall k | 0 <= k < |t| - 1 ensures t[k] != t[k + 1] {
          assert s[k + 1] != s[k + 2];
        }
      }
      DedupKeepsDistinctNeighbours(t);
      assert s[0] != s[1];
      calc {
        Dedup(s);
        [s[0]] + Dedup(t);
        [s[0]] + t;
        s;
      }
    }
  }

  lemma ConsSnoc<T>(a: T, u: seq<T>, x: T)
    ensures [a] + (u + [x]) == ([a] + u) + [x]
  {
  }

  /** Dedup read left to right: appending an element keeps what came before
      and adds the element unless it repeats the last one. So the kept
      elements stay in their input order. */
  lemma {:induction false} DedupSnoc<T>(s: seq<T>, x: T)
    ensures Dedup(s + [x]) == if s != [] && s[|s| - 1] == x then Dedup(s) else Dedup(s) + [x]
  {
    if |s| == 1 {
      assert s + [x] == [s[0], x];
      assert [s[0], x][1..] == [x];
    } else if |s| >= 2 {
      var t := s[1..];
      var sx := s + [x];
      assert sx[0] == s[0] && sx[1] == s[1] && |sx| > 1;
      assert sx[1..] == t + [x];
      assert t[|t| - 1] == s[|s| - 1];
      DedupSnoc(t, x);
      if s[0] != s[1] {
        calc {
          Dedup(sx);
          [s[0]] + Dedup(t + [x]);
          [s[0]] + (if s[|s| - 1] == x then Dedup(t) else Dedup(t) + [x]);
          { ConsSnoc(s[0], Dedup(t), x); }
          if s[|s| - 1] == x then [s[0]] + Dedup(t) else ([s[0]] + Dedup(t)) + [x];
        }
      }
    }
  }

  lemma DedupIdempotent<T>(s: seq<T>)
    ensures Dedup(Dedup(s)) == Dedup(s)
  {
    DedupKeepsDistinctNeighbours(Dedup(s));
  }
}
