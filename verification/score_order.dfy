/** Python's ordering of integer tuples, which is how standard scores are
    compared (`score > best_score`, `max(scores)`). */
module ScoreOrder {
  import opened Results

  /** Python's `a < b` for tuples of ints: the first differing position
      decides, and a proper prefix is smaller than the longer tuple. */
  predicate Below(a: seq<int>, b: seq<int>)
    decreases |a|
  {
    if a == [] then b != []
    else if b == [] then false
    else a[0] < b[0] || (a[0] == b[0] && Below(a[1..], b[1..]))
  }

  lemma {:induction false} BelowIrreflexive(a: seq<int>)
    ensures !Below(a, a)
    decreases |a|
  {
    if a != [] {
      BelowIrreflexive(a[1..]);
    }
  }

  lemma {:induction false} BelowTransitive(a: seq<int>, b: seq<int>, c: seq<int>)
    requires Below(a, b) && Below(b, c)
    ensures Below(a, c)
    decreases |a|
  {
    if a != [] && b != [] && c != [] && a[0] == b[0] == c[0] {
      BelowTransitive(a[1..], b[1..], c[1..]);
    }
  }

  /** Any two tuples are comparable: exactly one of `<`, `==`, `>` holds. */
  lemma {:induction false} BelowTrichotomy(a: seq<int>, b: seq<int>)
    ensures Below(a, b) || a == b || Below(b, a)
    ensures !(Below(a, b) && Below(b, a))
    ensures a == b ==> !Below(a, b)
    decreases |a|
  {
    if a != [] && b != [] {
      BelowTrichotomy(a[1..], b[1..]);
      if a[1..] == b[1..] && a[0] == b[0] {
        assert a == [a[0]] + a[1..] && b == [b[0]] + b[1..];
      }
    }
    if a == b {
      BelowIrreflexive(a);
    }
  }

  /** A larger first entry wins whatever follows it: a higher category
      outranks every score of a lower one. */
  lemma FirstEntryDecides(a: seq<int>, b: seq<int>)
    requires a != [] && b != [] && a[0] < b[0]
    ensures Below(a, b) && !Below(b, a)
  {
  }

  /** A left-to-right scan that replaces the current best only when the next
      key is strictly greater: Python's `max(xs)`, and the loop rule `if best
      is None or score > best`. */
  function FirstMax<T>(s: seq<T>, key: T -> seq<int>): Option<T>
    decreases |s|
  {
    if s == [] then None
    else
      var prev := FirstMax(s[..|s| - 1], key);
      if prev.None? || Below(key(prev.value), key(s[|s| - 1])) then Some(s[|s| - 1]) else prev
  }

  /** The scan finds nothing exactly when there is nothing; otherwise it
      finds the first element whose key no other key exceeds. */
  lemma {:induction false} FirstMaxSpec<T>(s: seq<T>, key: T -> seq<int>)
    ensures FirstMax(s, key).None? <==> s == []
    ensures s != [] ==>
      exists k :: && 0 <= k < |s| && FirstMax(s, key) == Some(s[k])
                  && (forall j :: 0 <= j < k ==> Below(key(s[j]), key(s[k])))
                  && (forall j :: 0 <= j < |s| ==> !Below(key(s[k]), key(s[j])))
    decreases |s|
  {
    if s != [] {
      var n := |s| - 1;
      var p := s[..n];
      FirstMaxSpec(p, key);
      var last := s[n];
      BelowIrreflexive(key(last));
      if p == [] {
        assert FirstMax(s, key) == Some(s[0]);
      } else {
        var k' :| 0 <= k' < n && FirstMax(p, key) == Some(p[k'])
          && (forall j :: 0 <= j < k' ==> Below(key(p[j]), key(p[k'])))
          && (forall j :: 0 <= j < n ==> !Below(key(p[k']), key(p[j])));
        if Below(key(s[k']), key(last)) {
          forall j | 0 <= j < n ensures Below(key(s[j]), key(last)) {
            assert s[j] == p[j];
            BelowTrichotomy(key(s[j]), key(s[k']));
            if key(s[j]) != key(s[k']) {
              BelowTransitive(key(s[j]), key(s[k']), key(last));
            }
          }
          forall j | 0 <= j < |s| ensures !Below(key(last), key(s[j])) {
            if j < n {
              BelowTrichotomy(key(s[j]), key(last));
            }
          }
          assert FirstMax(s, key) == Some(s[n]);
        } else {
          forall j | 0 <= j < k' ensures Below(key(s[j]), key(s[k'])) {
            assert s[j] == p[j];
          }
          forall j | 0 <= j < |s| ensures !Below(key(s[k']), key(s[j])) {
            if j < n {
              assert s[j] == p[j];
            }
          }
          assert FirstMax(s, key) == Some(s[k']);
        }
      }
    }
  }
}
