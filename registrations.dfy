/**
  The registry shared by the registration view and the notification
  service: a Python dict from channel id to record. A dict remembers the
  order in which its keys were inserted, and both the delete scan and the
  fan-out send walk it in that order, so the model keeps that order beside
  the mapping.
*/
module Registrations {
  import opened Wrappers
  import opened Subscription

  ghost predicate Distinct(s: seq<string>)
  {
    forall i, j :: 0 <= i < j < |s| ==> s[i] != s[j]
  }

  /** `order` lists every key of `records` exactly once: the dict's iteration order. */
  ghost predicate OrderedKeys(order: seq<string>, records: map<string, Registration>)
  {
    Distinct(order) && forall k :: k in order <==> k in records
  }

  /** Every record is stored under its own `id`, as a registration POST stores it. */
  ghost predicate KeysMatchIds(records: map<string, Registration>)
  {
    forall k :: k in records ==> records[k].id == k
  }

  /** The iteration order once `k` has been popped from the dict. */
  function Without(s: seq<string>, k: string): (r: seq<string>)
    ensures forall x :: x in r <==> x in s && x != k
    ensures Distinct(s) ==> Distinct(r)
  {
    if s == [] then []
    else
      var rest := Without(s[1..], k);
      if s[0] == k then rest
      else
        assert Distinct(s) ==> s[0] !in s[1..];
        [s[0]] + rest
  }

  /** Popping the key that was appended last gives back the order from before the append. */
  lemma {:induction false} WithoutLast(s: seq<string>, k: string)
    requires k !in s
    ensures Without(s + [k], k) == s
  {
    if s != [] {
      assert (s + [k])[1..] == s[1..] + [k];
      WithoutLast(s[1..], k);
    }
  }

  /** Popping a key the order does not hold leaves the order as it is. */
  lemma {:induction false} WithoutAbsent(s: seq<string>, k: string)
    requires k !in s
    ensures Without(s, k) == s
  {
    if s != [] {
      WithoutAbsent(s[1..], k);
    }
  }

  /**
    Popping a key keeps the relative order of every other key: the keys
    before it and the keys after it close up around the gap.
  */
  lemma {:induction false} WithoutMiddle(a: seq<string>, k: string, b: seq<string>)
    requires k !in a && k !in b
    ensures Without(a + [k] + b, k) == a + b
  {
    if a == [] {
      assert a + [k] + b == [k] + b;
      assert ([k] + b)[1..] == b;
      WithoutAbsent(b, k);
    } else {
      assert (a + [k] + b)[0] == a[0];
      assert (a + [k] + b)[1..] == a[1..] + [k] + b;
      WithoutMiddle(a[1..], k, b);
      assert a + b == [a[0]] + (a[1..] + b);
    }
  }

  /** The stored record matches the id a DELETE body asks for. */
  predicate Matches(reg: Registration, requested: Option<string>)
  {
    requested == Some(reg.id)
  }

  /** The key of the first record, in iteration order, whose stored `id` is the requested one. */
  function FirstMatch(order: seq<string>, records: map<string, Registration>, requested: Option<string>): (r: Option<string>)
    requires forall k :: k in order ==> k in records
    ensures r.None? <==> forall k :: k in order ==> !Matches(records[k], requested)
    ensures r.Some? ==> exists i :: 0 <= i < |order| && order[i] == r.value && Matches(records[r.value], requested)
                           && forall j :: 0 <= j < i ==> !Matches(records[order[j]], requested)
  {
    if order == [] then None
    else if Matches(records[order[0]], requested) then Some(order[0])
    else
      var r := FirstMatch(order[1..], records, requested);
      assert r.Some? ==> exists i :: 1 <= i < |order| && order[i] == r.value && Matches(records[r.value], requested)
                           && forall j :: 0 <= j < i ==> !Matches(records[order[j]], requested) by {
        if r.Some? {
          var i :| 0 <= i < |order[1..]| && order[1..][i] == r.value
                   && forall j :: 0 <= j < i ==> !Matches(records[order[1..][j]], requested);
          assert order[i + 1] == r.value;
          forall j | 0 <= j < i + 1 ensures !Matches(records[order[j]], requested) {
            if j > 0 { assert order[j] == order[1..][j - 1]; }
          }
        }
      }
      r
  }

  /**
    The loop of the DELETE handler: walk the dict's items and stop at the
    first record whose stored `id` equals the requested one.
  */
  method Scan(order: seq<string>, records: map<string, Registration>, requested: Option<string>) returns (found: Option<string>)
    requires forall k :: k in order ==> k in records
    ensures found == FirstMatch(order, records, requested)
  {
    found := None;
    var i := 0;
    while i < |order|
      invariant 0 <= i <= |order|
      invariant FirstMatch(order, records, requested) == FirstMatch(order[i..], records, requested)
    {
      var key := order[i];
      if Matches(records[key], requested) {
        found := Some(key);
        break;
      }
      assert order[i..][1..] == order[i + 1..];
      i := i + 1;
    }
  }

  /**
    When every record sits under its own id, scanning the values finds
    exactly the key a direct lookup would.
  */
  lemma ScanIsKeyLookup(order: seq<string>, records: map<string, Registration>, id: string)
    requires forall k :: k in order ==> k in records
    requires KeysMatchIds(records)
    ensures FirstMatch(order, records, Some(id)) == if id in order then Some(id) else None
  {
  }

  /** The dict object itself, shared by reference between the view and the service. */
  class Registry {
    var order: seq<string>
    var records: map<string, Registration>

    ghost predicate Valid()
      reads this
    {
      OrderedKeys(order, records)
    }

    /** The registry as loaded from the registrations file at start-up. */
    constructor (order: seq<string>, records: map<string, Registration>)
      requires OrderedKeys(order, records)
      ensures Valid()
      ensures this.order == order && this.records == records
    {
      this.order := order;
      this.records := records;
    }

    /** `registrations[key] = reg`: replaces the record in place, or appends a new key. */
    method Assign(key: string, reg: Registration)
      requires Valid()
      modifies this
      ensures Valid()
      ensures records == old(records)[key := reg]
      ensures order == if key in old(records) then old(order) else old(order) + [key]
    {
      if key !in records {
        order := order + [key];
      }
      records := records[key := reg];
      assert forall i :: 0 <= i < |old(order)| ==> order[i] == old(order)[i];
    }

    /** `registrations.pop(key)`: removes the key and gives back its record. */
    method Pop(key: string) returns (reg: Registration)
      requires Valid()
      requires key in records
      modifies this
      ensures Valid()
      ensures reg == old(records)[key]
      ensures records == old(records) - {key}
      ensures order == Without(old(order), key)
    {
      reg := records[key];
      records := records - {key};
      order := Without(order, key);
    }
  }
}
