/**
 * Copying a request payload onto a stored instance, either unconditionally
 * or only into the fields the instance records as missing.
 */
module GeneralUtils {
  import opened Base
  import opened Models

  /** The attribute map that assigning the fields in order produces, on top of nothing. */
  function Assigned(fields: seq<(string, Value)>): map<string, Value>
  {
    if fields == [] then map[]
    else Assigned(fields[..|fields| - 1])[fields[|fields| - 1].0 := fields[|fields| - 1].1]
  }

  /** Every payload field is assigned to the instance, in payload order. */
  method UpdateModels(payload: seq<(string, Value)>, model: Record)
    modifies model
    ensures model.attrs == old(model.attrs) + Assigned(payload)
    ensures model.missingData == old(model.missingData)
  {
    var i := 0;
    while i < |payload|
      invariant 0 <= i <= |payload|
      invariant model.attrs == old(model.attrs) + Assigned(payload[..i])
      invariant model.missingData == old(model.missingData)
    {
      assert payload[..i + 1][..i] == payload[..i];
      model.attrs := model.attrs[payload[i].0 := payload[i].1];
      i := i + 1;
    }
    assert payload[..i] == payload;
  }

  /**
   * The position of the first payload field the instance does not record
   * as missing (absent from its missing-data map, or recorded as present),
   * or the payload's length if every field may be filled in.
   */
  function FirstLocked(payload: seq<(string, Value)>, missing: map<string, bool>): (k: nat)
    ensures k <= |payload|
    ensures forall i :: 0 <= i < k ==> payload[i].0 in missing && missing[payload[i].0]
    ensures k < |payload| ==> !(payload[k].0 in missing && missing[payload[k].0])
  {
    if payload == [] then 0
    else if payload[0].0 in missing && missing[payload[0].0] then 1 + FirstLocked(payload[1..], missing)
    else 0
  }

  /**
   * Fields are assigned in order while the instance records them as
   * missing; the first field it records as present stops the update with
   * 422, and one absent from its missing-data map with a key error. The
   * fields assigned before the stop stay assigned on the instance.
   */
  method UpdateModelsWithValidation(payload: seq<(string, Value)>, model: Record) returns (r: Outcome)
    modifies model
    ensures var k := FirstLocked(payload, old(model.missingData));
      && model.attrs == old(model.attrs) + Assigned(payload[..k])
      && (r == Pass <==> k == |payload|)
      && (k < |payload| && payload[k].0 in old(model.missingData) ==> r == Fail(Http(Unprocessable)))
      && (k < |payload| && payload[k].0 !in old(model.missingData) ==> r == Fail(KeyError))
    ensures model.missingData == old(model.missingData)
  {
    var i := 0;
    while i < |payload|
      invariant 0 <= i <= |payload|
      invariant forall j :: 0 <= j < i ==> payload[j].0 in model.missingData && model.missingData[payload[j].0]
      invariant model.attrs == old(model.attrs) + Assigned(payload[..i])
      invariant model.missingData == old(model.missingData)
    {
      var field := payload[i].0;
      if field !in model.missingData {
        FirstLockedAt(payload, model.missingData, i);
        return Fail(KeyError);
      }
      if !model.missingData[field] {
        FirstLockedAt(payload, model.missingData, i);
        return Fail(Http(Unprocessable));
      }
      assert payload[..i + 1][..i] == payload[..i];
      model.attrs := model.attrs[field := payload[i].1];
      i := i + 1;
    }
    FirstLockedAt(payload, model.missingData, i);
    assert payload[..i] == payload;
    r := Pass;
  }

  /** FirstLocked is the first position where the condition fails. */
  lemma {:induction false} FirstLockedAt(payload: seq<(string, Value)>, missing: map<string, bool>, k: nat)
    requires k <= |payload|
    requires forall i :: 0 <= i < k ==> payload[i].0 in missing && missing[payload[i].0]
    requires k < |payload| ==> !(payload[k].0 in missing && missing[payload[k].0])
    ensures FirstLocked(payload, missing) == k
  {
    if k > 0 {
      FirstLockedAt(payload[1..], missing, k - 1);
    }
  }
}
