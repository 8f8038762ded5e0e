/**
 * The ranking action menu (app/components/ranking_action_menu.py).  For the
 * reference set method the points labelled "A1" form the ideal set and those
 * labelled "A0" the status-quo set; running a ranking method first runs the
 * ideal point method on the points and then the chosen ranking method.  The
 * methods themselves are named, not run: the result is the sequence of calls
 * the presenter makes on its model.
 */
module RankingActionMenu {
  import opened Wrappers

  const IdealLabel := "A1"
  const StatusQuoLabel := "A0"

  /** The rows of class className, in order: `class_data[[cn == className for cn in class_names]]`. */
  function Select<T>(names: seq<string>, data: seq<T>, className: string): (rows: seq<T>)
    requires |names| == |data|
    ensures |rows| <= |data|
  {
    if |names| == 0 then []
    else
      var n := |names| - 1;
      Select(names[..n], data[..n], className) + if names[n] == className then [data[n]] else []
  }

  /** The positions of class className, in order. */
  function Positions(names: seq<string>, className: string): (ks: seq<nat>)
    ensures forall t :: 0 <= t < |ks| ==> ks[t] < |names| && names[ks[t]] == className
    ensures forall k :: 0 <= k < |names| && names[k] == className ==> k in ks
    ensures forall a, b :: 0 <= a < b < |ks| ==> ks[a] < ks[b]
  {
    if |names| == 0 then []
    else
      var n := |names| - 1;
      var init := Positions(names[..n], className);
      assert forall k :: 0 <= k < n && names[k] == className ==> k in init by {
        forall k | 0 <= k < n && names[k] == className
          ensures k in init
        {
          assert names[..n][k] == className;
        }
      }
      init + if names[n] == className then [n] else []
  }

  /** The selected rows are exactly the rows at the class's positions, in order. */
  lemma {:induction false} SelectIsPositions<T>(names: seq<string>, data: seq<T>, className: string)
    requires |names| == |data|
    ensures |Select(names, data, className)| == |Positions(names, className)|
    ensures forall t :: 0 <= t < |Positions(names, className)| ==>
      Select(names, data, className)[t] == data[Positions(names, className)[t]]
  {
    if |names| > 0 {
      var n := |names| - 1;
      SelectIsPositions(names[..n], data[..n], className);
    }
  }

  /** numpy's messages for a mask of the wrong length and for an index array of floats. */
  const MaskMismatch := "boolean index did not match indexed array along axis 0"
  const NonIntegerIndex := "arrays used as indices must be of integer (or boolean) type"

  /** The keyword arguments of the `partial` built for the reference set method. */
  datatype ReferenceSets<T> = ReferenceSets(ideal: seq<T>, statusQuo: seq<T>)

  /**
   * `build_rsm_with_reference_sets`: numpy refuses a label mask whose length
   * differs from the number of rows with an IndexError.  An empty list of
   * class names makes `np.array([])` a float array, which numpy refuses as
   * an index, also with an IndexError.
   */
  function BuildRsmWithReferenceSets<T>(names: seq<string>, data: seq<T>): (r: Result<ReferenceSets<T>>)
    ensures r.Ok? <==> |names| == |data| && |names| > 0
    ensures r.Err? ==> r.error.IndexError?
    ensures |names| == 0 ==> r.Err? && r.error.message == NonIntegerIndex
    ensures |names| > 0 && |names| != |data| ==> r.Err? && r.error.message == MaskMismatch
    ensures r.Ok? ==> r.value.ideal == Select(names, data, IdealLabel)
    ensures r.Ok? ==> r.value.statusQuo == Select(names, data, StatusQuoLabel)
  {
    if |names| == 0 then Err(IndexError(NonIntegerIndex))
    else if |names| != |data| then Err(IndexError(MaskMismatch))
    else Ok(ReferenceSets(Select(names, data, IdealLabel), Select(names, data, StatusQuoLabel)))
  }

  /**
   * The ideal set holds exactly the rows labelled "A1" and the status-quo set
   * exactly those labelled "A0", both in order; no position is in both, and a
   * row with any other class name is in neither.
   */
  lemma ReferenceSetsSplit<T>(names: seq<string>, data: seq<T>)
    requires |names| == |data| > 0
    ensures var sets := BuildRsmWithReferenceSets(names, data).value;
      && |sets.ideal| == |Positions(names, IdealLabel)|
      && (forall t :: 0 <= t < |sets.ideal| ==> sets.ideal[t] == data[Positions(names, IdealLabel)[t]])
      && |sets.statusQuo| == |Positions(names, StatusQuoLabel)|
      && (forall t :: 0 <= t < |sets.statusQuo| ==> sets.statusQuo[t] == data[Positions(names, StatusQuoLabel)[t]])
    ensures forall k :: k in Positions(names, IdealLabel) ==> k !in Positions(names, StatusQuoLabel)
    ensures forall k :: 0 <= k < |names| && names[k] != IdealLabel && names[k] != StatusQuoLabel ==>
      k !in Positions(names, IdealLabel) && k !in Positions(names, StatusQuoLabel)
  {
    SelectIsPositions(names, data, IdealLabel);
    SelectIsPositions(names, data, StatusQuoLabel);
    assert IdealLabel != StatusQuoLabel by {
      assert IdealLabel[1] != StatusQuoLabel[1];
    }
  }

  /** The ranking methods on offer: the reference set method, or another one named by its key. */
  datatype RankingMethod = ReferenceSetMethod | OtherMethod(name: string)

  /** The ranking method the presenter finally calls. */
  datatype RankingCall<T> = WithReferenceSets(sets: ReferenceSets<T>) | Plain(rankingMethod: RankingMethod)

  /** A call the presenter makes on its model. */
  datatype ModelCall<T> =
    | ProcessPointsWithNaiveAlgorithm(algorithm: string)
    | ProcessPointsWithRankingMethod(ranking: RankingCall<T>)

  const IdealPointMethodName := "ideal_point_method"

  /** The ideal point method on the points, then the ranking method. */
  function Calls<T>(ranking: RankingCall<T>): seq<ModelCall<T>> {
    [ProcessPointsWithNaiveAlgorithm(IdealPointMethodName), ProcessPointsWithRankingMethod(ranking)]
  }

  /**
   * `run_algorithm`: look up the selected method (a missing key is a
   * KeyError); the reference set method gets its reference sets bound first;
   * then the ideal point method runs, then the ranking method.
   */
  function RunAlgorithm<T>(selected: string, supported: map<string, RankingMethod>, names: seq<string>, data: seq<T>)
    : (r: Result<seq<ModelCall<T>>>)
    ensures r.Ok? <==> selected in supported && (supported[selected] == ReferenceSetMethod ==> |names| == |data| > 0)
    ensures selected !in supported ==> r.Err? && r.error.KeyError?
    ensures selected in supported && supported[selected] == ReferenceSetMethod && (|names| != |data| || |names| == 0) ==>
      r.Err? && r.error.IndexError?
    ensures r.Ok? ==> |r.value| == 2 && r.value[0] == ProcessPointsWithNaiveAlgorithm(IdealPointMethodName)
    ensures r.Ok? ==> selected in supported && r.value[1].ProcessPointsWithRankingMethod?
    ensures r.Ok? && supported[selected] == ReferenceSetMethod ==>
      r.value[1].ranking == WithReferenceSets(BuildRsmWithReferenceSets(names, data).value)
    ensures r.Ok? && supported[selected] != ReferenceSetMethod ==> r.value[1].ranking == Plain(supported[selected])
  {
    if selected !in supported then Err(KeyError(selected))
    else
      var algorithm := supported[selected];
      if algorithm == ReferenceSetMethod then
        match BuildRsmWithReferenceSets(names, data)
        case Err(e) => Err(e)
        case Ok(sets) => Ok(Calls(WithReferenceSets(sets)))
      else Ok(Calls(Plain(algorithm)))
  }
}
