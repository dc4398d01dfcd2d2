/**
  The diagnostic lookup of one event by id (logic.js): keep the features
  whose id equals the target, then take the first of them. Where the script
  reads a field of `results[0]` with nothing there and faults, the model
  answers NotFound.
 */
module Lookup {
  import opened Style

  datatype LookupResult = Found(feature: Feature) | NotFound

  /** `sub` can be obtained from `s` by deleting elements, keeping the order. */
  ghost predicate IsSubsequence(sub: seq<Feature>, s: seq<Feature>)
    decreases |s|
  {
    if sub == [] then true
    else if s == [] then false
    else if sub[0] == s[0] then IsSubsequence(sub[1..], s[1..])
    else IsSubsequence(sub, s[1..])
  }

  /** Index i holds the first feature with the target id. */
  ghost predicate IsFirstMatch(features: seq<Feature>, target: string, i: int) {
    && 0 <= i < |features|
    && features[i].id == target
    && forall j :: 0 <= j < i ==> features[j].id != target
  }

  /**
    `features.filter(f => f.id == target)`: exactly the features with the
    target id, duplicates included, in their input order.
   */
  function FilterById(features: seq<Feature>, target: string): (results: seq<Feature>)
    ensures IsSubsequence(results, features)
    ensures forall k :: 0 <= k < |results| ==> results[k].id == target
    ensures forall f: Feature :: f.id == target ==> multiset(results)[f] == multiset(features)[f]
    decreases |features|
  {
    if features == [] then []
    else
      var rest := FilterById(features[1..], target);
      assert features == [features[0]] + features[1..];
      if features[0].id == target then [features[0]] + rest else rest
  }

  /** `results[0]`, with NotFound where the script would fault. */
  function FindById(features: seq<Feature>, target: string): (r: LookupResult)
    ensures r.NotFound? <==> forall i :: 0 <= i < |features| ==> features[i].id != target
    ensures r.Found? ==> r.feature.id == target && r.feature in features
  {
    var results := FilterById(features, target);
    if |results| == 0 then NotFound else Found(results[0])
  }

  /** Every feature of the filter's result occurs in the input. */
  lemma {:induction false} SubsequenceMembers(sub: seq<Feature>, s: seq<Feature>, f: Feature)
    requires IsSubsequence(sub, s)
    requires f in sub
    ensures f in s
    decreases |s|
  {
    if sub[0] == s[0] {
      if f != sub[0] {
        SubsequenceMembers(sub[1..], s[1..], f);
      }
    } else {
      SubsequenceMembers(sub, s[1..], f);
    }
  }

  /** The filter keeps a feature exactly when it occurs with the target id. */
  lemma FilterMembers(features: seq<Feature>, target: string, f: Feature)
    ensures f in FilterById(features, target) <==> f in features && f.id == target
  {
    var results := FilterById(features, target);
    if f in results {
      SubsequenceMembers(results, features, f);
    }
  }

  /** The head of the filter's result is the first match of the input. */
  lemma {:induction false} FilterHeadIsFirstMatch(features: seq<Feature>, target: string, i: int)
    requires IsFirstMatch(features, target, i)
    ensures |FilterById(features, target)| > 0
    ensures FilterById(features, target)[0] == features[i]
    decreases i
  {
    if i > 0 {
      assert IsFirstMatch(features[1..], target, i - 1);
      FilterHeadIsFirstMatch(features[1..], target, i - 1);
    }
  }

  /** Whenever some feature has the target id, a first one does. */
  lemma {:induction false} FirstMatchExists(features: seq<Feature>, target: string, i: int)
    requires 0 <= i < |features| && features[i].id == target
    ensures exists k :: IsFirstMatch(features, target, k)
    decreases i
  {
    if exists j :: 0 <= j < i && features[j].id == target {
      var j :| 0 <= j < i && features[j].id == target;
      FirstMatchExists(features, target, j);
    } else {
      assert IsFirstMatch(features, target, i);
    }
  }

  /**
    The lookup finds the first feature with the target id, in input order,
    and answers NotFound only when no feature has it.
   */
  lemma FindByIdIsFirstMatch(features: seq<Feature>, target: string)
    ensures FindById(features, target).Found?
        <==> exists i :: IsFirstMatch(features, target, i)
    ensures forall i :: IsFirstMatch(features, target, i) ==> FindById(features, target) == Found(features[i])
  {
    forall i | IsFirstMatch(features, target, i)
      ensures FindById(features, target) == Found(features[i])
    {
      FilterHeadIsFirstMatch(features, target, i);
    }
    var r := FindById(features, target);
    if r.Found? {
      var i :| 0 <= i < |features| && features[i].id == target;
      FirstMatchExists(features, target, i);
    }
  }
}
