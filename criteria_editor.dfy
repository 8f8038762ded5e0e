/**
 * The criteria editor (app/components/criteria_editor.py).  Its presenter
 * edits the criteria of the loaded model: their labels, their optimisation
 * directions ("Min" or "Max") and the data matrix with one column per
 * criterion.  A new criterion is named "Nowe Kryterium #k" for the first k
 * free among the labels.
 */
module CriteriaEditor {

  /** The decimal digit for d < 10. */
  function Digit(d: nat): char
    requires d < 10
  {
    "0123456789"[d]
  }

  /** The value of a decimal digit, the inverse of Digit. */
  function DigitValue(c: char): nat {
    if '0' <= c <= '9' then (c - '0') as nat else 0
  }

  /** Python's `str(n)` for a natural number: its decimal digits, no leading zeros. */
  function NatToString(n: nat): (s: string)
    ensures |s| >= 1
    ensures |s| == 1 <==> n < 10
  {
    if n < 10 then [Digit(n)] else NatToString(n / 10) + [Digit(n % 10)]
  }

  /** Reading decimal digits back, most significant first. */
  function StringToNat(s: string): nat
    requires |s| >= 1
  {
    if |s| == 1 then DigitValue(s[0]) else 10 * StringToNat(s[..|s| - 1]) + DigitValue(s[|s| - 1])
  }

  lemma DigitRoundTrip(d: nat)
    requires d < 10
    ensures DigitValue(Digit(d)) == d
  {
  }

  /** Reading back the decimal form of n gives n. */
  lemma {:induction false} NatToStringRoundTrip(n: nat)
    ensures StringToNat(NatToString(n)) == n
  {
    if n < 10 {
      DigitRoundTrip(n);
    } else {
      var s := NatToString(n);
      NatToStringRoundTrip(n / 10);
      DigitRoundTrip(n % 10);
      assert s[..|s| - 1] == NatToString(n / 10);
    }
  }

  /** Distinct numbers have distinct decimal forms. */
  lemma NatToStringInjective(a: nat, b: nat)
    ensures NatToString(a) == NatToString(b) ==> a == b
  {
    NatToStringRoundTrip(a);
    NatToStringRoundTrip(b);
  }

  const NamePrefix := "Nowe Kryterium #"

  /** `f"Nowe Kryterium #{index}"`. */
  function DefaultName(index: nat): (name: string)
    ensures |name| > |NamePrefix| && name[..|NamePrefix|] == NamePrefix
  {
    NamePrefix + NatToString(index)
  }

  /** Distinct indices give distinct names. */
  lemma DefaultNameInjective(a: nat, b: nat)
    ensures DefaultName(a) == DefaultName(b) ==> a == b
  {
    if DefaultName(a) == DefaultName(b) {
      assert NatToString(a) == DefaultName(a)[|NamePrefix|..];
      assert NatToString(b) == DefaultName(b)[|NamePrefix|..];
      NatToStringInjective(a, b);
    }
  }

  /** The names for the indices 1 .. index - 1. */
  function NamesBelow(index: nat): (names: set<string>)
    ensures forall j :: 1 <= j < index ==> DefaultName(j) in names
    ensures forall n :: n in names ==> exists j :: 1 <= j < index && n == DefaultName(j)
  {
    if index <= 1 then {} else NamesBelow(index - 1) + {DefaultName(index - 1)}
  }

  /** The name for index is not among the names below it. */
  lemma NotBelow(index: nat)
    ensures DefaultName(index) !in NamesBelow(index)
  {
    if DefaultName(index) in NamesBelow(index) {
      var j :| 1 <= j < index && DefaultName(index) == DefaultName(j);
      DefaultNameInjective(index, j);
    }
  }

  /**
   * When the name for index is taken too, one more name is ruled out, so the
   * search for a free name cannot go on forever.
   */
  lemma NameStep(taken: set<string>, index: nat)
    requires index >= 1 && NamesBelow(index) <= taken && DefaultName(index) in taken
    ensures NamesBelow(index + 1) <= taken
    ensures |taken - NamesBelow(index + 1)| < |taken - NamesBelow(index)|
  {
    NotBelow(index);
    assert taken - NamesBelow(index + 1) == (taken - NamesBelow(index)) - {DefaultName(index)};
  }

  /** `np.column_stack((data, np.zeros(rows)))`: a zero appended to every row. */
  function AppendZeroColumn(data: seq<seq<real>>): (d: seq<seq<real>>)
    ensures |d| == |data|
    ensures forall k :: 0 <= k < |data| ==> d[k] == data[k] + [0.0]
  {
    seq(|data|, k requires 0 <= k < |data| => data[k] + [0.0])
  }

  /** Every row has more than idx columns. */
  predicate HasColumn(data: seq<seq<real>>, idx: nat) {
    forall k :: 0 <= k < |data| ==> idx < |data[k]|
  }

  /** `np.delete(data, idx, axis=1)`: column idx removed from every row. */
  function DeleteColumn(data: seq<seq<real>>, idx: nat): (d: seq<seq<real>>)
    requires HasColumn(data, idx)
    ensures |d| == |data|
    ensures forall k :: 0 <= k < |data| ==> d[k] == data[k][..idx] + data[k][idx + 1..]
  {
    seq(|data|, k requires 0 <= k < |data| => data[k][..idx] + data[k][idx + 1..])
  }

  /** `list.pop(idx)`. */
  function Without<T>(s: seq<T>, idx: nat): (r: seq<T>)
    requires idx < |s|
    ensures |r| == |s| - 1
    ensures forall j :: 0 <= j < idx ==> r[j] == s[j]
    ensures forall j :: idx <= j < |r| ==> r[j] == s[j + 1]
  {
    s[..idx] + s[idx + 1..]
  }

  /** `list.index(x)`: the first position holding x. */
  function IndexOf<T(==)>(s: seq<T>, x: T): (i: nat)
    requires x in s
    ensures i < |s| && s[i] == x
    ensures forall j :: 0 <= j < i ==> s[j] != x
  {
    if s[0] == x then 0 else 1 + IndexOf(s[1..], x)
  }

  /** The model the editor works on: labels, directions and the data matrix. */
  class CriteriaModel {
    var data: seq<seq<real>>
    var labels: seq<string>
    var directions: seq<string>

    constructor(data: seq<seq<real>>, labels: seq<string>, directions: seq<string>)
      ensures this.data == data && this.labels == labels && this.directions == directions
    {
      this.data := data;
      this.labels := labels;
      this.directions := directions;
    }

    /** One label and one direction per criterion, and one column per criterion in every row. */
    predicate Synced()
      reads this
    {
      && |labels| == |directions|
      && forall k :: 0 <= k < |data| ==> |data[k]| == |labels|
    }
  }

  class CriteriaPresenter {
    const model: CriteriaModel

    /** The presenter over a model; building its view is left out. */
    constructor(model: CriteriaModel)
      ensures this.model == model
    {
      this.model := model;
    }

    /** `get_columns`: the labels. */
    function GetColumns(): (columns: seq<string>)
      reads model
      ensures columns == model.labels
    {
      model.labels
    }

    /**
     * `get_default_new_criteria_name`: "Nowe Kryterium #k" for the smallest
     * k >= 1 whose name is not a label.
     */
    method GetDefaultNewCriteriaName() returns (name: string)
      ensures name !in model.labels
      ensures exists k :: k >= 1 && name == DefaultName(k) && forall j :: 1 <= j < k ==> DefaultName(j) in model.labels
    {
      var index := 1;
      name := DefaultName(index);
      ghost var taken := set n | n in model.labels;
      while name in model.labels
        invariant index >= 1 && name == DefaultName(index)
        invariant forall j :: 1 <= j < index ==> DefaultName(j) in model.labels
        invariant NamesBelow(index) <= taken
        decreases |taken - NamesBelow(index)|
      {
        NameStep(taken, index);
        index := index + 1;
        name := DefaultName(index);
      }
    }

    /**
     * `add_column`: a fresh name is appended to the labels, "Min" to the
     * directions, and a zero column to the data; the rows and their cells
     * stay as they were.
     */
    method AddColumn()
      modifies model
      ensures |model.labels| == |old(model.labels)| + 1
      ensures model.labels[..|old(model.labels)|] == old(model.labels)
      ensures model.labels[|old(model.labels)|] !in old(model.labels)
      ensures exists k :: (k >= 1 && model.labels[|old(model.labels)|] == DefaultName(k) &&
                           forall j :: 1 <= j < k ==> DefaultName(j) in old(model.labels))
      ensures model.directions == old(model.directions) + ["Min"]
      ensures model.data == AppendZeroColumn(old(model.data))
      ensures old(model.Synced()) ==> model.Synced()
    {
      var name := GetDefaultNewCriteriaName();
      model.labels := model.labels + [name];
      model.directions := model.directions + ["Min"];
      model.data := AppendZeroColumn(model.data);
    }

    /**
     * `remove_column`: the first criterion with that label loses its label,
     * its direction and its data column; an unknown label changes nothing.
     */
    method RemoveColumn(columnName: string)
      requires model.Synced()
      modifies model
      ensures columnName !in old(model.labels) ==>
        model.labels == old(model.labels) && model.directions == old(model.directions) && model.data == old(model.data)
      ensures columnName in old(model.labels) ==>
        var idx := IndexOf(old(model.labels), columnName);
        && model.labels == Without(old(model.labels), idx)
        && model.directions == Without(old(model.directions), idx)
        && HasColumn(old(model.data), idx)
        && model.data == DeleteColumn(old(model.data), idx)
      ensures model.Synced()
    {
      if columnName in model.labels {
        var idx := IndexOf(model.labels, columnName);
        model.directions := Without(model.directions, idx);
        model.labels := Without(model.labels, idx);
        model.data := DeleteColumn(model.data, idx);
      }
    }

    /**
     * `update_model`: the edited table's columns become the labels and the
     * directions; the data is untouched, so the editor stays in step as
     * long as the table keeps one row per criterion.
     */
    method UpdateModel(names: seq<string>, directions: seq<string>)
      modifies model
      ensures model.labels == names && model.directions == directions && model.data == old(model.data)
      ensures old(model.Synced()) && |names| == |directions| == |old(model.labels)| ==> model.Synced()
    {
      model.labels := names;
      model.directions := directions;
    }
  }
}
