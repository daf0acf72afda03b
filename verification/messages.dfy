/** Failure-reason lists: the string order of std::string and getUniqueSorted,
    which sorts a list of messages and drops repeats. */
module Messages {

  /** Lexicographic order on strings, character by character, a proper
      prefix coming first (the order std::sort uses on std::string). */
  predicate Below(a: string, b: string)
    decreases |a|
  {
    if |a| == 0 then |b| > 0
    else if |b| == 0 then false
    else a[0] < b[0] || (a[0] == b[0] && Below(a[1..], b[1..]))
  }

  lemma {:induction false} BelowIrreflexive(a: string)
    ensures !Below(a, a)
    decreases |a|
  {
    if |a| > 0 {
      BelowIrreflexive(a[1..]);
    }
  }

  lemma {:induction false} BelowTransitive(a: string, b: string, c: string)
    requires Below(a, b) && Below(b, c)
    ensures Below(a, c)
    decreases |a|
  {
    if |a| > 0 && a[0] == b[0] && b[0] == c[0] {
      BelowTransitive(a[1..], b[1..], c[1..]);
    }
  }

  lemma {:induction false} BelowTotal(a: string, b: string)
    requires a != b
    ensures Below(a, b) || Below(b, a)
    decreases |a|
  {
    if |a| > 0 && |b| > 0 && a[0] == b[0] {
      assert a == [a[0]] + a[1..] && b == [b[0]] + b[1..];
      BelowTotal(a[1..], b[1..]);
    }
  }

  /** Strictly increasing in the string order, hence free of repeats. */
  predicate StrictlySorted(s: seq<string>)
  {
    forall i, j :: 0 <= i < j < |s| ==> Below(s[i], s[j])
  }

  /** The set of messages a list holds. */
  function Members(s: seq<string>): set<string>
  {
    set m | m in s
  }

  /** Puts x into its place in a strictly sorted list, unless it is there. */
  function Insert(x: string, s: seq<string>): (r: seq<string>)
    requires StrictlySorted(s)
    ensures StrictlySorted(r)
    ensures Members(r) == Members(s) + {x}
    decreases |s|
  {
    if |s| == 0 then [x]
    else if x == s[0] then s
    else if Below(x, s[0]) then
      assert forall j :: 0 < j < |s| ==> Below(x, s[j]) by {
        forall j | 0 < j < |s| {
          BelowTransitive(x, s[0], s[j]);
        }
      }
      [x] + s
    else
      BelowTotal(x, s[0]);
      var tail := Insert(x, s[1..]);
      forall m | m in tail
        ensures Below(s[0], m)
      {
        assert m in Members(tail);
        if m != x {
          assert m in Members(s[1..]);
        }
      }
      var r := [s[0]] + tail;
      assert Members(s) == {s[0]} + Members(s[1..]) by {
        assert s == [s[0]] + s[1..];
      }
      assert Members(r) == {s[0]} + Members(tail);
      r
  }

  /** getUniqueSorted: the messages sorted, each once. */
  function UniqueSorted(msgs: seq<string>): (r: seq<string>)
    ensures StrictlySorted(r)
    ensures Members(r) == Members(msgs)
    decreases |msgs|
  {
    if |msgs| == 0 then []
    else
      var r := Insert(msgs[|msgs| - 1], UniqueSorted(msgs[..|msgs| - 1]));
      assert msgs == msgs[..|msgs| - 1] + [msgs[|msgs| - 1]];
      r
  }

  /** Two strictly sorted lists with the same members are the same list. */
  lemma {:induction false} StrictlySortedUnique(a: seq<string>, b: seq<string>)
    requires StrictlySorted(a) && StrictlySorted(b)
    requires Members(a) == Members(b)
    ensures a == b
    decreases |a|
  {
    assert |a| > 0 ==> a[0] in Members(a);
    assert |b| > 0 ==> b[0] in Members(b);
    if |a| > 0 && |b| > 0 {
      // a[0] and b[0] are both the least member
      if a[0] != b[0] {
        assert a[0] in Members(a) && b[0] in Members(b);
        assert a[0] in b && b[0] in a;
        var i :| 0 <= i < |b| && b[i] == a[0];
        var j :| 0 <= j < |a| && a[j] == b[0];
        BelowIrreflexive(a[0]);
        BelowIrreflexive(b[0]);
        assert Below(b[0], a[0]);
        assert Below(a[0], b[0]);
        BelowTransitive(a[0], b[0], a[0]);
        assert false;
      }
      forall m | m in a[1..]
        ensures m in b[1..]
      {
        var k :| 1 <= k < |a| && a[k] == m;
        assert Below(a[0], m);
        BelowIrreflexive(m);
        assert m in Members(a);
        assert m in b;
      }
      forall m | m in b[1..]
        ensures m in a[1..]
      {
        var k :| 1 <= k < |b| && b[k] == m;
        assert Below(b[0], m);
        BelowIrreflexive(m);
        assert m in Members(b);
        assert m in a;
      }
      StrictlySortedUnique(a[1..], b[1..]);
      assert a == [a[0]] + a[1..] && b == [b[0]] + b[1..];
    }
  }

  /** Sorting and de-duplicating twice is the same as once. */
  lemma UniqueSortedIdempotent(msgs: seq<string>)
    ensures UniqueSorted(UniqueSorted(msgs)) == UniqueSorted(msgs)
  {
    StrictlySortedUnique(UniqueSorted(UniqueSorted(msgs)), UniqueSorted(msgs));
  }

  /** The de-duplicated list is empty exactly when there was no failure. */
  lemma UniqueSortedEmpty(msgs: seq<string>)
    ensures UniqueSorted(msgs) == [] <==> msgs == []
  {
    if msgs != [] {
      assert msgs[0] in Members(msgs);
      assert msgs[0] in Members(UniqueSorted(msgs));
    }
  }
}
