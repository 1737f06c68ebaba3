/**
  The label codec: labels receive the dense indices 0..K-1 in the order
  in which they first occur among the samples; the inverse lookup scans
  the map for the label holding an index.
*/
module Labels {
  import opened Corpus

  /** The distinct labels of the samples, in order of first appearance. */
  function LabelOrder(samples: seq<Sample>): seq<string>
    decreases |samples|
  {
    if |samples| == 0 then []
    else
      var prev := LabelOrder(samples[..|samples| - 1]);
      var l := samples[|samples| - 1].labelName;
      if l in prev then prev else prev + [l]
  }

  ghost predicate Distinct(s: seq<string>)
  {
    forall i, j :: 0 <= i < j < |s| ==> s[i] != s[j]
  }

  /**
    The order lists every label of the samples, each once, and nothing
    else; so its length K is the number of distinct labels.
  */
  lemma {:induction false} LabelOrderProperties(samples: seq<Sample>)
    ensures Distinct(LabelOrder(samples))
    ensures forall l :: l in LabelOrder(samples) <==>
      exists i :: 0 <= i < |samples| && samples[i].labelName == l
    decreases |samples|
  {
    if |samples| > 0 {
      var init := samples[..|samples| - 1];
      LabelOrderProperties(init);
      forall l
        ensures l in LabelOrder(samples) <==> exists i :: 0 <= i < |samples| && samples[i].labelName == l
      {
        if l in LabelOrder(init) {
          var i :| 0 <= i < |init| && init[i].labelName == l;
          assert samples[i] == init[i];
        }
        if exists i :: 0 <= i < |samples| && samples[i].labelName == l {
          var i :| 0 <= i < |samples| && samples[i].labelName == l;
          if i < |init| {
            assert init[i] == samples[i];
          }
        }
      }
    }
  }

  /**
    First-seen order: the k-th label first occurs at a position p before
    which only the labels ranked below k have occurred.
  */
  lemma {:induction false} LabelOrderFirstSeen(samples: seq<Sample>, k: nat)
    requires k < |LabelOrder(samples)|
    ensures exists p ::
      && 0 <= p < |samples|
      && samples[p].labelName == LabelOrder(samples)[k]
      && (forall q :: 0 <= q < p ==> samples[q].labelName in LabelOrder(samples)[..k])
    decreases |samples|
  {
    var init := samples[..|samples| - 1];
    var prev := LabelOrder(init);
    var order := LabelOrder(samples);
    assert prev <= order;
    if k < |prev| {
      LabelOrderFirstSeen(init, k);
      var p :| 0 <= p < |init| && init[p].labelName == prev[k] &&
        forall q :: 0 <= q < p ==> init[q].labelName in prev[..k];
      assert prev[..k] == order[..k];
      assert samples[p] == init[p];
      assert forall q :: 0 <= q < p ==> samples[q] == init[q];
    } else {
      var p := |samples| - 1;
      assert order == prev + [samples[p].labelName] && k == |prev|;
      assert order[..k] == prev;
      LabelOrderProperties(init);
      forall q | 0 <= q < p
        ensures samples[q].labelName in order[..k]
      {
        assert init[q] == samples[q];
      }
    }
  }

  /** What encodeLabels returns: each label maps to its rank in first-seen order. */
  ghost predicate EncodesFirstSeen(labelMap: map<string, int>, samples: seq<Sample>)
  {
    var order := LabelOrder(samples);
    (forall l :: l in labelMap <==> l in order) &&
    (forall k :: 0 <= k < |order| ==> labelMap[order[k]] == k)
  }

  /** No two labels share an index. */
  ghost predicate Injective(labelMap: map<string, int>)
  {
    forall a, b :: a in labelMap && b in labelMap && a != b ==> labelMap[a] != labelMap[b]
  }

  /** The number of elements of a duplicate-free sequence. */
  lemma {:induction false} DistinctCardinality(s: seq<string>)
    requires Distinct(s)
    ensures |set x | x in s| == |s|
    decreases |s|
  {
    if |s| > 0 {
      var init := s[..|s| - 1];
      DistinctCardinality(init);
      assert (set x | x in s) == (set x | x in init) + {s[|s| - 1]};
      assert s[|s| - 1] !in init;
    }
  }

  /**
    A first-seen encoding gives the K distinct labels the indices 0..K-1,
    one each: the map has K entries, is injective and every index below K
    is held by a label.
  */
  lemma EncodingDense(labelMap: map<string, int>, samples: seq<Sample>)
    requires EncodesFirstSeen(labelMap, samples)
    ensures |labelMap| == |LabelOrder(samples)|
    ensures Injective(labelMap)
    ensures forall l :: l in labelMap ==> 0 <= labelMap[l] < |labelMap|
    ensures forall c :: 0 <= c < |labelMap| ==> c in labelMap.Values
    ensures forall i :: 0 <= i < |samples| ==> samples[i].labelName in labelMap
  {
    var order := LabelOrder(samples);
    LabelOrderProperties(samples);
    DistinctCardinality(order);
    assert labelMap.Keys == set x | x in order;
    forall l | l in labelMap
      ensures 0 <= labelMap[l] < |order| && order[labelMap[l]] == l
    {
      var k :| 0 <= k < |order| && order[k] == l;
    }
    forall c | 0 <= c < |order|
      ensures c in labelMap.Values
    {
      assert order[c] in labelMap && labelMap[order[c]] == c;
    }
    forall i | 0 <= i < |samples|
      ensures samples[i].labelName in labelMap
    {
      assert samples[i].labelName in order;
    }
  }

  /** Every index of a first-seen encoding is the code of some sample's label. */
  lemma ClassHasSample(labelMap: map<string, int>, samples: seq<Sample>, c: int) returns (i: int)
    requires EncodesFirstSeen(labelMap, samples) && 0 <= c < |LabelOrder(samples)|
    ensures 0 <= i < |samples| && samples[i].labelName in labelMap && labelMap[samples[i].labelName] == c
  {
    LabelOrderProperties(samples);
    var l := LabelOrder(samples)[c];
    assert l in LabelOrder(samples);
    i :| 0 <= i < |samples| && samples[i].labelName == l;
  }

  /** encodeLabels(samples) */
  method EncodeLabels(samples: seq<Sample>) returns (labelMap: map<string, int>)
    ensures EncodesFirstSeen(labelMap, samples)
    ensures forall l :: l in labelMap <==> exists i :: 0 <= i < |samples| && samples[i].labelName == l
  {
    labelMap := map[];
    var idx := 0;
    for i := 0 to |samples|
      invariant forall l :: l in labelMap <==> l in LabelOrder(samples[..i])
      invariant idx == |LabelOrder(samples[..i])|
      invariant forall k :: 0 <= k < idx ==> labelMap[LabelOrder(samples[..i])[k]] == k
    {
      assert samples[..i + 1][..i] == samples[..i];
      var s := samples[i];
      if s.labelName !in labelMap {
        labelMap := labelMap[s.labelName := idx];
        idx := idx + 1;
      }
    }
    assert samples[..|samples|] == samples;
    LabelOrderProperties(samples);
  }

  /** encodeLabelsArray(samples, labelMap): y[i] is the index of sample i's label. */
  method EncodeLabelsArray(samples: seq<Sample>, labelMap: map<string, int>) returns (y: array<int>)
    requires forall i :: 0 <= i < |samples| ==> samples[i].labelName in labelMap
    ensures fresh(y)
    ensures y.Length == |samples|
    ensures forall i :: 0 <= i < |samples| ==> y[i] == labelMap[samples[i].labelName]
  {
    y := new int[|samples|];
    for i := 0 to |samples|
      invariant forall p :: 0 <= p < i ==> y[p] == labelMap[samples[p].labelName]
    {
      y[i] := labelMap[samples[i].labelName];
    }
  }

  /**
    With a first-seen encoding every code lies in [0, K) and names the
    sample's label back: LabelOrder(samples)[y[i]] is sample i's label.
  */
  lemma CodesInRange(samples: seq<Sample>, labelMap: map<string, int>, i: int)
    requires EncodesFirstSeen(labelMap, samples) && 0 <= i < |samples|
    ensures samples[i].labelName in labelMap
    ensures 0 <= labelMap[samples[i].labelName] < |LabelOrder(samples)|
    ensures LabelOrder(samples)[labelMap[samples[i].labelName]] == samples[i].labelName
  {
    var order := LabelOrder(samples);
    LabelOrderProperties(samples);
    var l := samples[i].labelName;
    assert l in order;
    var k :| 0 <= k < |order| && order[k] == l;
  }

  /**
    inverseLabelMap(labelMap, idx): some label holding idx, or None (Java's
    null) when no label does. The scan order of the hash map is left open;
    on an injective map, such as a first-seen encoding, the answer is the
    one label holding idx, so decoding an encoded label gives it back.
  */
  method InverseLabelMap(labelMap: map<string, int>, idx: int) returns (r: Option<string>)
    ensures r.Some? ==> r.value in labelMap && labelMap[r.value] == idx
    ensures r.None? <==> forall l :: l in labelMap ==> labelMap[l] != idx
    ensures Injective(labelMap) ==> forall l :: l in labelMap && labelMap[l] == idx ==> r == Some(l)
  {
    var entries := labelMap.Keys;
    while entries != {}
      invariant entries <= labelMap.Keys
      invariant forall l :: l in labelMap && l !in entries ==> labelMap[l] != idx
      decreases |entries|
    {
      var key :| key in entries;
      if labelMap[key] == idx {
        return Some(key);
      }
      entries := entries - {key};
    }
    return None;
  }

  datatype Option<T> = None | Some(value: T)
}
