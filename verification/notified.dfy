/** The notified ledger of `notified.ts`: a JSON array of tweet ids in a
    file that is created by the first `addNotified`.  The file is `None`
    while it does not exist and `Some(ids)` afterwards; every operation
    re-reads it, so the operations are functions of the file state. */
module Notified {
  import opened Wrappers

  type Ledger = Option<seq<string>>

  /** The list the operations read: the file's contents, or `[]` when absent. */
  function Ids(ledger: Ledger): seq<string> {
    ledger.GetOr([])
  }

  /** `isFirst`: the file does not exist.  Then the list read is empty and
      no id is notified; an existing file holding `[]` is not a first run. */
  function IsFirst(ledger: Ledger): (first: bool)
    ensures first ==> Ids(ledger) == []
    ensures first ==> forall id :: !IsNotified(ledger, id)
    ensures ledger == Some([]) ==> !first
  {
    ledger.None?
  }

  /** `isNotified`: false without a file, list membership otherwise. */
  function IsNotified(ledger: Ledger, id: string): (notified: bool)
    ensures notified <==> exists i :: 0 <= i < |Ids(ledger)| && Ids(ledger)[i] == id
    ensures notified ==> ledger.Some?
  {
    assert Ids(ledger) == if ledger.Some? then ledger.value else [];
    ledger.Some? && id in ledger.value
  }

  /** `addNotified`: append to the existing list (or to `[]`) and write it
      back. */
  function AddNotified(ledger: Ledger, id: string): (r: Ledger)
    ensures r.Some?
    ensures |r.value| == |Ids(ledger)| + 1
    ensures r.value[..|Ids(ledger)|] == Ids(ledger)
    ensures r.value[|Ids(ledger)|] == id
  {
    Some(Ids(ledger) + [id])
  }

  /** After an add the file exists, the id is a member and every other id
      keeps its membership. */
  lemma AddNotifiedEffect(ledger: Ledger, id: string, other: string)
    ensures !IsFirst(AddNotified(ledger, id))
    ensures IsNotified(AddNotified(ledger, id), id)
    ensures other != id ==> (IsNotified(AddNotified(ledger, id), other) <==> IsNotified(ledger, other))
  {
    var r := AddNotified(ledger, id);
    assert r.value == Ids(ledger) + [id];
    assert r.value[|Ids(ledger)|] == id;
  }

  /** Membership only grows. */
  lemma AddNotifiedMonotone(ledger: Ledger, id: string, other: string)
    requires IsNotified(ledger, other)
    ensures IsNotified(AddNotified(ledger, id), other)
  {
    assert AddNotified(ledger, id).value == ledger.value + [id];
  }

  /** The list is not a set: adding an id already present keeps every
      answer of `isNotified` but stores the id twice. */
  lemma AddNotifiedDuplicates(ledger: Ledger, id: string)
    requires IsNotified(ledger, id)
    ensures forall x :: IsNotified(AddNotified(ledger, id), x) <==> IsNotified(ledger, x)
    ensures |AddNotified(ledger, id).value| == |ledger.value| + 1
    ensures multiset(AddNotified(ledger, id).value)[id] == multiset(ledger.value)[id] + 1
  {
    assert AddNotified(ledger, id).value == ledger.value + [id];
  }

  /** Adding a sequence of ids one by one, as the pipelines do. */
  function AddAll(ledger: Ledger, ids: seq<string>): (r: Ledger)
    ensures |ids| > 0 ==> r.Some?
    ensures |ids| == 0 ==> r == ledger
    ensures Ids(r) == Ids(ledger) + ids
    decreases |ids|
  {
    if |ids| == 0 then ledger
    else
      var r := AddAll(AddNotified(ledger, ids[0]), ids[1..]);
      assert Ids(ledger) + ids == Ids(ledger) + [ids[0]] + ids[1..];
      r
  }

  /** After adding `ids`, each of them is notified, as is everything that was. */
  lemma AddAllNotifies(ledger: Ledger, ids: seq<string>, x: string)
    requires x in ids || IsNotified(ledger, x)
    ensures IsNotified(AddAll(ledger, ids), x)
  {
    var r := AddAll(ledger, ids);
    if |ids| > 0 {
      assert x in Ids(r);
    } else {
      assert r == ledger;
    }
  }
}
