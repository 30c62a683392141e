/** Small shared vocabulary: optional values, and facts about finite sets that several components need. */
module Common {

  datatype Option<+T> = None | Some(value: T)
  {
    function GetOr(default: T): T {
      if Some? then value else default
    }
  }

  /** What a nullable lookup in a table answers. */
  function Get<K, V>(m: map<K, V>, k: K): Option<V> {
    if k in m then Some(m[k]) else None
  }

  /** Case folding of ASCII letters. */
  function LowerChar(c: char): char {
    if 'A' <= c <= 'Z' then (c as int + 32) as char else c
  }

  function Lower(s: string): (t: string)
    ensures |t| == |s|
  {
    seq(|s|, i requires 0 <= i < |s| => LowerChar(s[i]))
  }

  /** The same text but for the case of ASCII letters. */
  predicate SameText(a: string, b: string) {
    |a| == |b| && forall i :: 0 <= i < |a| ==> a[i] == b[i] || CaseOf(a[i], b[i]) || CaseOf(b[i], a[i])
  }

  predicate CaseOf(upper: char, lower: char) {
    'A' <= upper <= 'Z' && lower as int == upper as int + 'a' as int - 'A' as int
  }

  /** Folding makes texts equal exactly if they are the same but for case; it leaves no upper-case letter. */
  lemma FoldsAlikeIff(a: string, b: string)
    ensures Lower(a) == Lower(b) <==> SameText(a, b)
    ensures forall c :: c in Lower(a) ==> !('A' <= c <= 'Z')
    ensures Lower(Lower(a)) == Lower(a)
  {
    if Lower(a) == Lower(b) {
      forall i | 0 <= i < |a| ensures a[i] == b[i] || CaseOf(a[i], b[i]) || CaseOf(b[i], a[i]) {
        assert Lower(a)[i] == Lower(b)[i];
      }
    }
  }

  ghost function PickFrom<T>(s: set<T>): (x: T)
    requires s != {}
    ensures x in s
  {
    var x :| x in s; x
  }

  lemma SubsetCard<T>(a: set<T>, b: set<T>)
    requires a <= b
    ensures |a| <= |b|
  {
    assert b == a + (b - a);
  }

  lemma SingletonCard<T>(s: set<T>, x: T)
    requires x in s
    ensures |s| <= 1 <==> s == {x}
  {
    var rest := s - {x};
    assert s == rest + {x};
    assert |s| == |rest| + 1;
  }

  /** Two sets that differ at most in one place differ in size by what that place says. */
  lemma CardDelta(a: set<int>, b: set<int>, x: Option<int>)
    requires forall i :: x != Some(i) ==> (i in a <==> i in b)
    ensures |b| == |a| + (if x.Some? && x.value in b then 1 else 0) - (if x.Some? && x.value in a then 1 else 0)
  {
    if x == None {
      assert forall i :: i in a <==> i in b;
      assert a == b;
    } else {
      var rest := a - {x.value};
      assert forall i :: i in rest <==> i in b && i != x.value;
      assert rest == b - {x.value};
      assert a == if x.value in a then rest + {x.value} else rest;
      assert b == if x.value in b then rest + {x.value} else rest;
    }
  }
}
