/**
 * The registrants slice of the Redux store: an insertion-ordered list of
 * registrant records with an append reducer and a delete-by-id reducer.
 */
module RegistrantSlice {
  import opened Wrappers

  /** One registration as it is stored. `id` and `createdAt` are set when the record is made. */
  datatype Registrant = Registrant(
    id: string,
    image: Option<string>,
    firstName: string,
    lastName: string,
    email: string,
    phone: string,
    attending: string,
    adults: int,
    kids: int,
    kidAges: seq<int>,
    message: Option<string>,
    createdAt: string)

  /** The filter of `deleteRegistrant`: every record whose id differs from `id`, in order. */
  function WithoutId(list: seq<Registrant>, id: string): (r: seq<Registrant>)
    ensures |r| <= |list|
    ensures forall x | x in r :: x in list && x.id != id
  {
    if |list| == 0 then []
    else if list[0].id != id then [list[0]] + WithoutId(list[1..], id)
    else WithoutId(list[1..], id)
  }

  /** How many records in `list` carry `id`. */
  function CountWithId(list: seq<Registrant>, id: string): nat
  {
    if |list| == 0 then 0
    else (if list[0].id == id then 1 else 0) + CountWithId(list[1..], id)
  }

  /** The slice state: `list` is reassigned by the reducers. */
  class RegistrantStore {
    var list: seq<Registrant>

    /** `initialState`: no registrants. */
    constructor ()
      ensures list == []
    {
      list := [];
    }

    /** `addRegistrant`: pushes the payload, with no check that its id is new. */
    method AddRegistrant(payload: Registrant)
      modifies this
      ensures list == old(list) + [payload]
      ensures CountWithId(list, payload.id) == CountWithId(old(list), payload.id) + 1
    {
      CountWithIdAppend(list, payload);
      list := list + [payload];
    }

    /** `deleteRegistrant`: keeps only the records whose id differs from the payload. */
    method DeleteRegistrant(id: string)
      modifies this
      ensures list == WithoutId(old(list), id)
      ensures forall x | x in list :: x.id != id
    {
      list := WithoutId(list, id);
    }
  }

  // ---------------------------------------------------------------------------
  // Properties of the delete filter
  // ---------------------------------------------------------------------------

  /** Filtering distributes over concatenation: the kept records stay in their original order. */
  lemma {:induction false} WithoutIdConcat(a: seq<Registrant>, b: seq<Registrant>, id: string)
    ensures WithoutId(a + b, id) == WithoutId(a, id) + WithoutId(b, id)
  {
    if |a| == 0 {
      assert a + b == b;
    } else {
      assert (a + b)[1..] == a[1..] + b;
      WithoutIdConcat(a[1..], b, id);
    }
  }

  /** Every occurrence of a record with another id survives, and no occurrence of one with `id` does. */
  lemma {:induction false} WithoutIdMultiplicity(list: seq<Registrant>, id: string, x: Registrant)
    ensures multiset(WithoutId(list, id))[x] == if x.id == id then 0 else multiset(list)[x]
  {
    if |list| > 0 {
      WithoutIdMultiplicity(list[1..], id, x);
      assert list == [list[0]] + list[1..];
    }
  }

  /** Deleting removes exactly the records that carry `id`. */
  lemma {:induction false} WithoutIdLength(list: seq<Registrant>, id: string)
    ensures |WithoutId(list, id)| == |list| - CountWithId(list, id)
  {
    if |list| > 0 {
      WithoutIdLength(list[1..], id);
    }
  }

  /** Deleting an id leaves the list as it was exactly when no record carries that id. */
  lemma {:induction false} WithoutIdUnchangedIffAbsent(list: seq<Registrant>, id: string)
    ensures WithoutId(list, id) == list <==> forall x | x in list :: x.id != id
  {
    if forall x | x in list :: x.id != id {
      WithoutIdKeepsAbsent(list, id);
    } else {
      WithoutIdLength(list, id);
      CountWithIdZeroIffAbsent(list, id);
    }
  }

  lemma {:induction false} WithoutIdKeepsAbsent(list: seq<Registrant>, id: string)
    requires forall x | x in list :: x.id != id
    ensures WithoutId(list, id) == list
  {
    if |list| > 0 {
      assert list[0] in list;
      assert forall x | x in list[1..] :: x in list;
      WithoutIdKeepsAbsent(list[1..], id);
    }
  }

  lemma {:induction false} CountWithIdZeroIffAbsent(list: seq<Registrant>, id: string)
    ensures CountWithId(list, id) == 0 <==> forall x | x in list :: x.id != id
  {
    if |list| > 0 {
      CountWithIdZeroIffAbsent(list[1..], id);
      assert forall x | x in list :: x == list[0] || x in list[1..];
    } else {
      assert forall x | x in list :: false;
    }
  }

  /** Deleting the same id twice is the same as deleting it once. */
  lemma WithoutIdIdempotent(list: seq<Registrant>, id: string)
    ensures WithoutId(WithoutId(list, id), id) == WithoutId(list, id)
  {
  }

  /** Two deletions can be applied in either order. */
  lemma {:induction false} WithoutIdCommutes(list: seq<Registrant>, id1: string, id2: string)
    ensures WithoutId(WithoutId(list, id1), id2) == WithoutId(WithoutId(list, id2), id1)
  {
    if |list| > 0 {
      WithoutIdCommutes(list[1..], id1, id2);
    }
  }

  /** Adding with an id that `list` does not hold and then deleting that id restores `list`. */
  lemma AddThenDeleteRestores(list: seq<Registrant>, r: Registrant)
    requires forall x | x in list :: x.id != r.id
    ensures WithoutId(list + [r], r.id) == list
  {
    WithoutIdConcat(list, [r], r.id);
    WithoutIdUnchangedIffAbsent(list, r.id);
  }

  lemma {:induction false} CountWithIdAppend(list: seq<Registrant>, r: Registrant)
    ensures CountWithId(list + [r], r.id) == CountWithId(list, r.id) + 1
  {
    if |list| == 0 {
      assert list + [r] == [r];
    } else {
      assert (list + [r])[1..] == list[1..] + [r];
      CountWithIdAppend(list[1..], r);
    }
  }
}
