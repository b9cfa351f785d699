/** Order-preserving removal of duplicates: the list that results from scanning
    a sequence and appending each element that is not yet in the list. */
module Distinct {

  predicate NoDuplicates<T(==)>(s: seq<T>) {
    forall i, j :: 0 <= i < j < |s| ==> s[i] != s[j]
  }

  /** The position of the first occurrence of `x` in `s`. */
  ghost function FirstPos<T>(s: seq<T>, x: T): (k: nat)
    requires x in s
    ensures k < |s| && s[k] == x
    ensures forall j :: 0 <= j < k ==> s[j] != x
  {
    if s[0] == x then 0 else 1 + FirstPos(s[1..], x)
  }

  /** The list built by scanning `s` left to right and appending each element
      not already present. It is never longer than `s`. */
  function Dedup<T(==)>(s: seq<T>): (r: seq<T>)
    ensures |r| <= |s|
  {
    if s == [] then []
    else
      var d := Dedup(s[..|s| - 1]);
      if s[|s| - 1] in d then d else d + [s[|s| - 1]]
  }

  lemma AppendAssoc<T>(a: seq<T>, b: seq<T>, c: seq<T>)
    ensures (a + b) + c == a + (b + c)
  {
  }

  /** One step of the scan: what appending one more element does. */
  lemma DedupSnoc<T>(s: seq<T>, x: T)
    ensures Dedup(s + [x]) == if x in Dedup(s) then Dedup(s) else Dedup(s) + [x]
  {
    assert (s + [x])[..|s|] == s;
  }

  /** The result holds exactly the elements of the input. */
  lemma {:induction false} DedupElements<T>(s: seq<T>, x: T)
    ensures x in Dedup(s) <==> x in s
  {
    if s != [] {
      var p := s[..|s| - 1];
      assert s == p + [s[|s| - 1]];
      DedupElements(p, x);
    }
  }

  /** The result never holds the same element twice. */
  lemma {:induction false} DedupNoDuplicates<T>(s: seq<T>)
    ensures NoDuplicates(Dedup(s))
  {
    if s != [] {
      DedupNoDuplicates(s[..|s| - 1]);
    }
  }

  lemma FirstPosSnoc<T>(s: seq<T>, x: T, y: T)
    requires y in s
    ensures FirstPos(s + [x], y) == FirstPos(s, y)
  {
    var a, b := FirstPos(s + [x], y), FirstPos(s, y);
    assert (s + [x])[b] == y;
    assert a <= b;
    assert s[a] == y;
  }

  /** The result lists elements in the order of their first occurrence in the input. */
  lemma {:induction false} DedupFirstOccurrenceOrder<T>(s: seq<T>, i: nat, j: nat)
    requires i < j < |Dedup(s)|
    ensures Dedup(s)[i] in s && Dedup(s)[j] in s
    ensures FirstPos(s, Dedup(s)[i]) < FirstPos(s, Dedup(s)[j])
  {
    DedupElements(s, Dedup(s)[i]);
    DedupElements(s, Dedup(s)[j]);
    var p, x := s[..|s| - 1], s[|s| - 1];
    assert s == p + [x];
    var d := Dedup(p);
    DedupElements(p, d[i]);
    FirstPosSnoc(p, x, d[i]);
    if j < |d| {
      DedupElements(p, d[j]);
      FirstPosSnoc(p, x, d[j]);
      DedupFirstOccurrenceOrder(p, i, j);
    } else {
      DedupElements(p, x);
      assert FirstPos(s, x) == |p|;
    }
  }

  /** An input without duplicates passes through unchanged. */
  lemma {:induction false} DedupOfDistinct<T>(s: seq<T>)
    requires NoDuplicates(s)
    ensures Dedup(s) == s
  {
    if s != [] {
      var p, x := s[..|s| - 1], s[|s| - 1];
      DedupOfDistinct(p);
      DedupElements(p, x);
      assert x !in p;
    }
  }

  /** Deduplicating twice is deduplicating once. */
  lemma DedupIdempotent<T>(s: seq<T>)
    ensures Dedup(Dedup(s)) == Dedup(s)
  {
    DedupNoDuplicates(s);
    DedupOfDistinct(Dedup(s));
  }

  /** Elements scanned later never disturb the list built so far: it is a prefix
      of the list built from the longer input. */
  lemma {:induction false} DedupPrefix<T>(a: seq<T>, b: seq<T>)
    ensures Dedup(a) <= Dedup(a + b)
  {
    if b != [] {
      var c, x := b[..|b| - 1], b[|b| - 1];
      assert a + b == (a + c) + [x];
      DedupPrefix(a, c);
      DedupSnoc(a + c, x);
    } else {
      assert a + b == a;
    }
  }

  /** `r` lists the distinct elements of `s`, ordered by first occurrence. */
  ghost predicate FirstOccurrenceList<T>(s: seq<T>, r: seq<T>) {
    && NoDuplicates(r)
    && (forall i :: 0 <= i < |r| ==> r[i] in s)
    && (forall i :: 0 <= i < |s| ==> s[i] in r)
    && forall i, j :: 0 <= i < j < |r| ==> FirstPos(s, r[i]) < FirstPos(s, r[j])
  }

  /** `Dedup` produces such a list. */
  lemma DedupIsFirstOccurrenceList<T>(s: seq<T>)
    ensures FirstOccurrenceList(s, Dedup(s))
  {
    DedupNoDuplicates(s);
    forall i | 0 <= i < |Dedup(s)| ensures Dedup(s)[i] in s { DedupElements(s, Dedup(s)[i]); }
    forall i | 0 <= i < |s| ensures s[i] in Dedup(s) { DedupElements(s, s[i]); }
    forall i, j | 0 <= i < j < |Dedup(s)|
      ensures FirstPos(s, Dedup(s)[i]) < FirstPos(s, Dedup(s)[j])
    {
      DedupFirstOccurrenceOrder(s, i, j);
    }
  }

  /** ... and it is the only one: the three properties determine the list. */
  lemma {:induction false} FirstOccurrenceListUnique<T>(s: seq<T>, r: seq<T>)
    requires FirstOccurrenceList(s, r)
    ensures r == Dedup(s)
  {
    if s == [] {
      ElementsFromEmpty(s, r);
    } else {
      var p, x := s[..|s| - 1], s[|s| - 1];
      assert s == p + [x];
      forall y | y in p ensures FirstPos(s, y) == FirstPos(p, y) { FirstPosSnoc(p, x, y); }
      DedupElements(p, x);
      if x in p {
        FirstOccurrenceListOfPrefix(p, x, r);
        FirstOccurrenceListUnique(p, r);
      } else {
        NewElementIsLast(p, x, r);
        DropNewElement(p, x, r);
        assert r == r[..|r| - 1] + [x];
        FirstOccurrenceListUnique(p, r[..|r| - 1]);
      }
    }
  }

  /** A list whose elements all come from `s` is empty when `s` is. */
  lemma ElementsFromEmpty<T>(s: seq<T>, r: seq<T>)
    requires forall i :: 0 <= i < |r| ==> r[i] in s
    ensures s == [] ==> r == []
  {
    if r != [] {
      assert r[0] in s;
    }
  }

  /** Scanning an element already seen leaves the list as it was. */
  lemma FirstOccurrenceListOfPrefix<T>(p: seq<T>, x: T, r: seq<T>)
    requires x in p
    requires FirstOccurrenceList(p + [x], r)
    ensures FirstOccurrenceList(p, r)
  {
    var s := p + [x];
    forall y | y in p ensures FirstPos(s, y) == FirstPos(p, y) { FirstPosSnoc(p, x, y); }
    forall i | 0 <= i < |r| ensures r[i] in p {
      assert r[i] in s;
    }
    forall i | 0 <= i < |p| ensures p[i] in r {
      assert s[i] in r;
    }
  }

  /** Scanning a new element puts it last. */
  lemma NewElementIsLast<T>(p: seq<T>, x: T, r: seq<T>)
    requires x !in p
    requires FirstOccurrenceList(p + [x], r)
    ensures |r| > 0 && r[|r| - 1] == x
  {
    var s := p + [x];
    forall y | y in p ensures FirstPos(s, y) == FirstPos(p, y) { FirstPosSnoc(p, x, y); }
    assert FirstPos(s, x) == |p|;
    assert s[|p|] in r;
    var i :| 0 <= i < |r| && r[i] == x;
    forall j | 0 <= j < |r| && j != i ensures FirstPos(s, r[j]) < |p| {
      assert r[j] != x && r[j] in s;
    }
    assert FirstPos(s, r[|r| - 1]) >= FirstPos(s, r[i]);
  }

  /** ... after the list of what came before it. */
  lemma DropNewElement<T>(p: seq<T>, x: T, r: seq<T>)
    requires x !in p
    requires FirstOccurrenceList(p + [x], r)
    requires |r| > 0 && r[|r| - 1] == x
    ensures FirstOccurrenceList(p, r[..|r| - 1])
  {
    var s, r' := p + [x], r[..|r| - 1];
    forall y | y in p ensures FirstPos(s, y) == FirstPos(p, y) { FirstPosSnoc(p, x, y); }
    forall k | 0 <= k < |r'| ensures r'[k] in p {
      assert r[k] in s && r[k] != r[|r| - 1];
    }
    forall k | 0 <= k < |p| ensures p[k] in r' {
      assert s[k] in r && p[k] != x;
    }
  }
}
