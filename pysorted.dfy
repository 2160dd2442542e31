/** Python's ordering of strings (code point by code point) and `sorted()` of a dict's keys. */
module PySorted {

  /** `a < b` on Python strings: lexicographic by code point, a proper prefix first. */
  predicate Lt(a: string, b: string) {
    if a == [] then b != []
    else if b == [] then false
    else a[0] < b[0] || (a[0] == b[0] && Lt(a[1..], b[1..]))
  }

  lemma {:induction false} LtIrreflexive(a: string)
    ensures !Lt(a, a)
    decreases |a|
  {
    if a != [] {
      LtIrreflexive(a[1..]);
    }
  }

  lemma {:induction false} LtTransitive(a: string, b: string, c: string)
    requires Lt(a, b) && Lt(b, c)
    ensures Lt(a, c)
    decreases |a|
  {
    if a != [] && b != [] && c != [] && a[0] == b[0] == c[0] {
      LtTransitive(a[1..], b[1..], c[1..]);
    }
  }

  lemma {:induction false} LtTotal(a: string, b: string)
    requires a != b
    ensures Lt(a, b) || Lt(b, a)
    decreases |a|
  {
    if a != [] && b != [] && a[0] == b[0] {
      assert a == [a[0]] + a[1..] && b == [b[0]] + b[1..];
      LtTotal(a[1..], b[1..]);
    }
  }

  predicate NoDuplicates(s: seq<string>) {
    forall i, j :: 0 <= i < j < |s| ==> s[i] != s[j]
  }

  /** Every element is below every later one: ascending with no repeats. */
  predicate StrictlyAscending(s: seq<string>) {
    forall i, j :: 0 <= i < j < |s| ==> Lt(s[i], s[j])
  }

  /** An element below every element of an ascending sequence can go in front of it. */
  lemma ConsAscending(h: string, rest: seq<string>)
    requires StrictlyAscending(rest)
    requires forall j :: 0 <= j < |rest| ==> Lt(h, rest[j])
    ensures StrictlyAscending([h] + rest)
  {
    forall i, j | 0 <= i < j < |[h] + rest| ensures Lt(([h] + rest)[i], ([h] + rest)[j]) {
      if i == 0 {
        assert ([h] + rest)[j] == rest[j - 1];
      } else {
        assert ([h] + rest)[i] == rest[i - 1] && ([h] + rest)[j] == rest[j - 1];
      }
    }
  }

  /** The elements of `rest` are those of `tail` and `x`, all above `h`. */
  lemma AboveHead(h: string, x: string, tail: seq<string>, rest: seq<string>)
    requires forall j :: 0 <= j < |tail| ==> Lt(h, tail[j])
    requires Lt(h, x)
    requires multiset(rest) == multiset(tail) + multiset{x}
    ensures forall j :: 0 <= j < |rest| ==> Lt(h, rest[j])
  {
    forall j | 0 <= j < |rest| ensures Lt(h, rest[j]) {
      assert rest[j] in multiset(rest);
      if rest[j] != x {
        assert rest[j] in multiset(tail);
        assert rest[j] in tail;
      }
    }
  }

  /** Insert `x` into an ascending sequence at its place. */
  function Insert(x: string, s: seq<string>): (r: seq<string>)
    requires StrictlyAscending(s) && x !in s
    ensures StrictlyAscending(r)
    ensures multiset(r) == multiset(s) + multiset{x}
  {
    if s == [] then [x]
    else if Lt(x, s[0]) then
      forall j | 0 <= j < |s| ensures Lt(x, s[j]) {
        if j > 0 {
          LtTransitive(x, s[0], s[j]);
        }
      }
      ConsAscending(x, s);
      [x] + s
    else
      LtTotal(x, s[0]);
      assert s == [s[0]] + s[1..];
      var rest := Insert(x, s[1..]);
      AboveHead(s[0], x, s[1..], rest);
      ConsAscending(s[0], rest);
      [s[0]] + rest
  }

  /**
   * `sorted(keys)` for keys without repeats (a dict's keys): the same keys, ascending.
   */
  function SortedKeys(keys: seq<string>): (r: seq<string>)
    requires NoDuplicates(keys)
    ensures StrictlyAscending(r)
    ensures multiset(r) == multiset(keys)
  {
    if keys == [] then []
    else
      assert keys == [keys[0]] + keys[1..];
      var rest := SortedKeys(keys[1..]);
      assert keys[0] !in keys[1..];
      assert keys[0] !in multiset(rest);
      Insert(keys[0], rest)
  }

  /** `sorted` keeps exactly the keys it was given. */
  lemma SortedKeysSameKeys(keys: seq<string>)
    requires NoDuplicates(keys)
    ensures |SortedKeys(keys)| == |keys|
    ensures forall k :: k in SortedKeys(keys) <==> k in keys
  {
    var r := SortedKeys(keys);
    assert |multiset(r)| == |multiset(keys)|;
    forall k ensures k in r <==> k in keys {
      assert k in r <==> k in multiset(r);
      assert k in keys <==> k in multiset(keys);
    }
  }

  lemma HasMember(s: seq<string>)
    requires s != []
    ensures exists k :: k in s
  {
    assert s[0] in s;
  }

  /** Two ascending sequences with the same elements are the same sequence: `sorted` output is determined by its keys. */
  lemma {:induction false} AscendingUnique(r: seq<string>, s: seq<string>)
    requires StrictlyAscending(r) && StrictlyAscending(s)
    requires forall k :: k in r <==> k in s
    ensures r == s
    decreases |r|
  {
    if r != [] && s != [] {
      assert r[0] in r && s[0] in s;
      if r[0] != s[0] {
        var i :| 0 <= i < |r| && r[i] == s[0];
        var j :| 0 <= j < |s| && s[j] == r[0];
        assert Lt(r[0], r[i]) && Lt(s[0], s[j]);
        LtTransitive(r[0], s[0], r[0]);
        LtIrreflexive(r[0]);
      }
      forall k ensures k in r[1..] <==> k in s[1..] {
        if k in r[1..] {
          var i :| 1 <= i < |r| && r[i] == k;
          assert Lt(r[0], k);
          LtIrreflexive(k);
          assert k in r;
          var j :| 0 <= j < |s| && s[j] == k;
          assert j != 0;
          assert s[1..][j - 1] == k;
        }
        if k in s[1..] {
          var j :| 1 <= j < |s| && s[j] == k;
          assert Lt(s[0], k);
          LtIrreflexive(k);
          assert k in s;
          var i :| 0 <= i < |r| && r[i] == k;
          assert i != 0;
          assert r[1..][i - 1] == k;
        }
      }
      AscendingUnique(r[1..], s[1..]);
      assert r == [r[0]] + r[1..] && s == [s[0]] + s[1..];
    } else if r != [] {
      HasMember(r);
    } else if s != [] {
      HasMember(s);
    }
  }
}
