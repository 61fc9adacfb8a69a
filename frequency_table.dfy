/**
 * The insertion-ordered label counts of the session summary (main.py,
 * lines 164-174 and 182/187).  A Python dict keeps its keys in insertion
 * order; it is modelled as a sequence of (label, count) entries, and
 * `max(d.items(), key=...)` as a left-to-right scan that replaces its
 * candidate only on a strictly larger count.
 */
module FrequencyTable {

  type Table = seq<(string, nat)>

  /** The label reported when a table is empty. */
  const NoDetection: string := "No Detection"

  /** How often `x` occurs in `s`: the reference definition of a count. */
  function Occurrences<T(==)>(s: seq<T>, x: T): nat
  {
    if |s| == 0 then 0
    else Occurrences(s[..|s| - 1], x) + (if s[|s| - 1] == x then 1 else 0)
  }

  /** The position of the first occurrence of `l` in `s`. */
  function FirstIndex(s: seq<string>, l: string): (k: nat)
    requires l in s
    ensures k < |s| && s[k] == l
    ensures forall j :: 0 <= j < k ==> s[j] != l
  {
    if s[0] == l then 0 else 1 + FirstIndex(s[1..], l)
  }

  /** The position of key `l` in `t`, or `|t|` when `l` is not a key (the dict lookup). */
  function KeyIndex(t: Table, l: string): (k: nat)
    ensures k <= |t|
    ensures k < |t| ==> t[k].0 == l
    ensures forall j :: 0 <= j < k ==> t[j].0 != l
  {
    if |t| == 0 then 0
    else if t[0].0 == l then 0
    else 1 + KeyIndex(t[1..], l)
  }

  /** `d.get(l, 0)`. */
  function Get(t: Table, l: string): nat
  {
    var k := KeyIndex(t, l);
    if k < |t| then t[k].1 else 0
  }

  /** `d[l] = d.get(l, 0) + 1`: an existing key keeps its place, a new one goes last. */
  function Bump(t: Table, l: string): Table
  {
    var k := KeyIndex(t, l);
    if k < |t| then t[k := (l, t[k].1 + 1)] else t + [(l, 1)]
  }

  /** The table built by counting the labels of `s` one after the other (lines 167-171). */
  function Frequencies(s: seq<string>): Table
  {
    if |s| == 0 then [] else Bump(Frequencies(s[..|s| - 1]), s[|s| - 1])
  }

  /** No label is a key twice. */
  predicate DistinctKeys(t: Table)
  {
    forall i, j :: 0 <= i < j < |t| ==> t[i].0 != t[j].0
  }

  /**
   * Python's `max` over the items with key `count`: the first entry whose
   * count is maximal.
   */
  function MaxIndex(t: Table): (k: nat)
    requires |t| > 0
    ensures k < |t|
    ensures forall j :: 0 <= j < |t| ==> t[j].1 <= t[k].1
    ensures forall j :: 0 <= j < k ==> t[j].1 < t[k].1
  {
    if |t| == 1 then 0
    else
      var b := MaxIndex(t[..|t| - 1]);
      if t[|t| - 1].1 > t[b].1 then |t| - 1 else b
  }

  /** Lines 173-174: the dominant label, or "No Detection" for an empty table. */
  function MostCommon(t: Table): string
  {
    if |t| == 0 then NoDetection else t[MaxIndex(t)].0
  }

  /** Lines 182 and 187: `d.get(label, 0) / total`, and 0 without retained results. */
  function Confidence(t: Table, l: string, total: nat): real
  {
    if total > 0 then (Get(t, l) as real) / (total as real) else 0.0
  }

  /** One increment changes only the count of the label counted. */
  lemma GetBump(t: Table, x: string, l: string)
    ensures Get(Bump(t, x), l) == Get(t, l) + (if l == x then 1 else 0)
  {
    var k := KeyIndex(t, x);
    var t' := Bump(t, x);
    if k < |t| {
      assert t'[k].0 == x;
      assert forall j :: 0 <= j < |t| ==> t'[j].0 == t[j].0;
      KeyIndexSameKeys(t, t', l);
    } else {
      KeyIndexAppend(t, (x, 1), l);
    }
  }

  /** Lookup depends only on the keys. */
  lemma {:induction false} KeyIndexSameKeys(t: Table, u: Table, l: string)
    requires |t| == |u| && forall j :: 0 <= j < |t| ==> t[j].0 == u[j].0
    ensures KeyIndex(t, l) == KeyIndex(u, l)
  {
    if |t| > 0 && t[0].0 != l {
      KeyIndexSameKeys(t[1..], u[1..], l);
    }
  }

  /** Appending an entry does not move an existing key. */
  lemma {:induction false} KeyIndexAppend(t: Table, e: (string, nat), l: string)
    ensures KeyIndex(t + [e], l) == if KeyIndex(t, l) < |t| then KeyIndex(t, l)
                                  else if e.0 == l then |t| else |t| + 1
  {
    if |t| > 0 {
      assert (t + [e])[1..] == t[1..] + [e];
      if t[0].0 != l {
        KeyIndexAppend(t[1..], e, l);
      }
    }
  }

  /** Every count in the table is the number of occurrences of its label (both for keys and non-keys). */
  lemma {:induction false} FrequenciesCount(s: seq<string>, l: string)
    ensures Get(Frequencies(s), l) == Occurrences(s, l)
  {
    if |s| > 0 {
      FrequenciesCount(s[..|s| - 1], l);
      GetBump(Frequencies(s[..|s| - 1]), s[|s| - 1], l);
    }
  }

  /** The keys are distinct, and the keys are exactly the labels of `s`. */
  lemma {:induction false} FrequenciesKeys(s: seq<string>)
    ensures DistinctKeys(Frequencies(s))
    ensures forall l :: l in s <==> KeyIndex(Frequencies(s), l) < |Frequencies(s)|
  {
    if |s| > 0 {
      var p, x := s[..|s| - 1], s[|s| - 1];
      FrequenciesKeys(p);
      var t := Frequencies(p);
      var k := KeyIndex(t, x);
      var t' := Bump(t, x);
      assert s == p + [x];
      if k < |t| {
        assert forall j :: 0 <= j < |t| ==> t'[j].0 == t[j].0;
        forall l ensures l in s <==> KeyIndex(t', l) < |t'| {
          KeyIndexSameKeys(t, t', l);
        }
      } else {
        forall l ensures l in s <==> KeyIndex(t', l) < |t'| {
          KeyIndexAppend(t, (x, 1), l);
        }
      }
    }
  }

  /** Every entry's count is the number of occurrences of its label, and positive. */
  lemma TableEntries(s: seq<string>)
    ensures var t := Frequencies(s);
      forall i :: 0 <= i < |t| ==> t[i].1 == Occurrences(s, t[i].0) && t[i].1 > 0 && t[i].0 in s
  {
    var t := Frequencies(s);
    FrequenciesKeys(s);
    forall i | 0 <= i < |t| ensures t[i].1 == Occurrences(s, t[i].0) && t[i].1 > 0 && t[i].0 in s {
      var l := t[i].0;
      assert KeyIndex(t, l) == i;
      FrequenciesCount(s, l);
      OccurrencesPositive(s, l);
    }
  }

  /** A label occurs in `s` exactly when its count is positive. */
  lemma {:induction false} OccurrencesPositive<T>(s: seq<T>, l: T)
    ensures Occurrences(s, l) > 0 <==> l in s
  {
    if |s| > 0 {
      OccurrencesPositive(s[..|s| - 1], l);
      assert s == s[..|s| - 1] + [s[|s| - 1]];
    }
  }

  /** The first occurrence of a label is not moved by appending. */
  lemma FirstIndexAppend(s: seq<string>, x: string, l: string)
    requires l in s
    ensures FirstIndex(s + [x], l) == FirstIndex(s, l)
  {
    var k, k' := FirstIndex(s, l), FirstIndex(s + [x], l);
    assert (s + [x])[k] == l;
    assert s[k'] == l || k' == |s|;
  }

  /** The keys stand in the order of their labels' first occurrences in `s`. */
  predicate InFirstOccurrenceOrder(t: Table, s: seq<string>)
  {
    forall i, j :: 0 <= i < j < |t| ==>
      (t[i].0 in s && t[j].0 in s && FirstIndex(s, t[i].0) < FirstIndex(s, t[j].0))
  }

  /** The table lists the labels of `s` in the order in which they first occur. */
  lemma {:induction false} FrequenciesOrder(s: seq<string>)
    ensures InFirstOccurrenceOrder(Frequencies(s), s)
  {
    if |s| > 0 {
      var p, x := s[..|s| - 1], s[|s| - 1];
      FrequenciesOrder(p);
      TableEntries(p);
      assert s == p + [x];
      var t := Frequencies(p);
      var k := KeyIndex(t, x);
      var t' := Bump(t, x);
      forall l | l in p ensures l in s && FirstIndex(s, l) == FirstIndex(p, l) {
        FirstIndexAppend(p, x, l);
      }
      if k < |t| {
        assert forall j :: 0 <= j < |t| ==> t'[j].0 == t[j].0;
        forall i, j | 0 <= i < j < |t'|
          ensures t'[i].0 in s && t'[j].0 in s && FirstIndex(s, t'[i].0) < FirstIndex(s, t'[j].0)
        {
          assert t'[i].0 == t[i].0 && t'[j].0 == t[j].0;
        }
      } else {
        FrequenciesKeys(p);
        assert x !in p;
        assert FirstIndex(s, x) == |p|;
        forall i, j | 0 <= i < j < |t'|
          ensures t'[i].0 in s && t'[j].0 in s && FirstIndex(s, t'[i].0) < FirstIndex(s, t'[j].0)
        {
          assert t'[i] == t[i];
          if j == |t| {
            assert t'[j].0 == x;
            assert FirstIndex(p, t[i].0) < |p|;
          } else {
            assert t'[j] == t[j];
          }
        }
      }
    }
  }

  /**
   * The dominant label of a non-empty list: it occurs, no label occurs more
   * often, and of the labels that occur as often it is the one that occurs
   * first.  An empty list yields "No Detection".
   */
  lemma MostCommonIsEarliestMode(s: seq<string>)
    ensures |s| == 0 ==> MostCommon(Frequencies(s)) == NoDetection
    ensures |s| > 0 ==> IsEarliestMode(s, MostCommon(Frequencies(s)))
  {
    if |s| > 0 {
      var t := Frequencies(s);
      FrequenciesKeys(s);
      assert KeyIndex(t, s[0]) < |t|;
      var m := MaxIndex(t);
      var d := t[m].0;
      EntryCount(s, m);
      forall l | l in s
        ensures Occurrences(s, l) <= Occurrences(s, d)
        ensures Occurrences(s, l) == Occurrences(s, d) ==> FirstIndex(s, d) <= FirstIndex(s, l)
      {
        var k := KeyIndex(t, l);
        EntryCount(s, k);
        if Occurrences(s, l) == Occurrences(s, d) && k != m {
          assert m < k;
          FrequenciesOrder(s);
          assert t[m].0 in s && t[k].0 in s && FirstIndex(s, t[m].0) < FirstIndex(s, t[k].0);
        }
      }
    }
  }

  /** `d` occurs in `s`, as often as any label, and first among those that occur as often. */
  predicate IsEarliestMode(s: seq<string>, d: string)
  {
    && d in s
    && (forall l :: l in s ==> Occurrences(s, l) <= Occurrences(s, d))
    && (forall l :: l in s && Occurrences(s, l) == Occurrences(s, d) ==>
          FirstIndex(s, d) <= FirstIndex(s, l))
  }

  /** One entry of the table: its count is the number of occurrences of its label. */
  lemma EntryCount(s: seq<string>, i: nat)
    requires i < |Frequencies(s)|
    ensures Frequencies(s)[i].1 == Occurrences(s, Frequencies(s)[i].0)
    ensures Frequencies(s)[i].0 in s
  {
    TableEntries(s);
  }

  /** The confidence of the dominant label lies in (0, 1], and is 0 for an empty list. */
  lemma ConfidenceBounds(s: seq<string>, total: nat)
    requires |s| <= total && total > 0
    ensures var t := Frequencies(s);
      var d := MostCommon(t);
      && (|s| == 0 ==> Confidence(t, d, total) == 0.0)
      && (|s| > 0 ==> Confidence(t, d, total) == (Occurrences(s, d) as real) / (total as real))
      && (|s| > 0 ==> 0.0 < Confidence(t, d, total) <= 1.0)
  {
    var t := Frequencies(s);
    var d := MostCommon(t);
    FrequenciesCount(s, d);
    if |s| == 0 {
      assert Get(t, d) == 0;
    } else {
      MostCommonIsEarliestMode(s);
      assert IsEarliestMode(s, d);
      OccurrencesPositive(s, d);
      OccurrencesBound(s, d);
      var c := Occurrences(s, d);
      assert 0 < c <= total;
      assert (c as real) <= (total as real);
      DivisionBounds(c as real, total as real);
    }
  }

  lemma DivisionBounds(a: real, b: real)
    requires 0.0 < a <= b
    ensures 0.0 < a / b <= 1.0
  {
  }

  /** No label occurs more often than the list is long. */
  lemma {:induction false} OccurrencesBound(s: seq<string>, l: string)
    ensures Occurrences(s, l) <= |s|
  {
    if |s| > 0 {
      OccurrencesBound(s[..|s| - 1], l);
    }
  }

  /**
   * The counting loops of lines 167-171: one pass over the labels that
   * bumps the label's entry in place or appends a new one.
   */
  method CountLabels(labels: seq<string>) returns (counts: Table)
    ensures counts == Frequencies(labels)
  {
    counts := [];
    for i := 0 to |labels|
      invariant counts == Frequencies(labels[..i])
    {
      var item := labels[i];
      assert labels[..i + 1][..i] == labels[..i];
      var k := KeyIndex(counts, item);
      if k < |counts| {
        counts := counts[k := (item, counts[k].1 + 1)];
      } else {
        counts := counts + [(item, 1)];
      }
    }
    assert labels[..|labels|] == labels;
  }
}
