/**
  WindowsPushRegistrationView: the HTTP resource through which devices add
  and remove their push registrations. The view writes the shared registry
  in place, hands the whole registry to the persistence helper, and undoes
  its change when that save fails.
*/
module RegistrationView {
  import opened Wrappers
  import opened JsonValue
  import opened Subscription
  import opened Registrations

  const StatusOk := 200
  const StatusBadRequest := 400
  const StatusServerError := 500

  const InvalidJsonText := "Invalid JSON"
  const RegisteredText := "Push notification subscriber registered."
  const SaveErrorText := "Error saving registration."
  const NotFoundText := "Registration not found."
  const UnregisteredText := "Push notification subscriber unregistered."

  /** A fixed reply text, or the schema violation that the humanised validation error describes. */
  datatype Message = Text(text: string) | Violation(error: SchemaError)

  /**
    What a handler gives the HTTP framework: a JSON message with a status,
    or an exception the handler does not catch.
  */
  datatype Response = Reply(status: int, message: Message) | Uncaught

  /** `data.get('id')` compared with the stored ids: only a JSON string can equal one. */
  function RequestedId(fields: map<string, Json>): (r: Option<string>)
    ensures forall reg :: Matches(reg, r) <==> IdKey in fields && fields[IdKey] == JStr(reg.id)
  {
    if IdKey in fields && fields[IdKey].JStr? then Some(fields[IdKey].s) else None
  }

  /** Python truthiness of the scan result `found`: None and the empty key are both false. */
  predicate Truthy(found: Option<string>)
  {
    found.Some? && found.value != ""
  }

  /**
    The key the DELETE handler removes, as the code is written: the first
    match of the scan, unless the `if not found` test rejects it.
  */
  function DeleteTarget(order: seq<string>, records: map<string, Registration>, requested: Option<string>): (r: Option<string>)
    requires forall k :: k in order ==> k in records
    ensures r.Some? ==> r.value in records && r.value != "" && Matches(records[r.value], requested)
    ensures r.Some? ==> FirstMatch(order, records, requested) == r
    ensures r.None? <==> (forall k :: k in order ==> !Matches(records[k], requested))
                         || FirstMatch(order, records, requested) == Some("")
  {
    var found := FirstMatch(order, records, requested);
    if Truthy(found) then found else None
  }

  /**
    The key the DELETE handler evidently means to remove: the first match,
    whatever its key. A record that matches is always found.
  */
  function IntendedDeleteTarget(order: seq<string>, records: map<string, Registration>, requested: Option<string>): (r: Option<string>)
    requires forall k :: k in order ==> k in records
    ensures r.None? <==> forall k :: k in order ==> !Matches(records[k], requested)
    ensures r.Some? ==> r.value in records && Matches(records[r.value], requested)
  {
    FirstMatch(order, records, requested)
  }

  /**
    As written, a record stored under the empty key is never removed: a
    device that registered with the id "" gets "Registration not found."
    for every DELETE of that id, although the scan finds its record.
  */
  lemma EmptyIdIsNeverUnregistered(v: Validators, channel: string)
    requires v.text(JStr("")) == Some("")
    requires v.url(JStr(channel)) == Some(channel)
    ensures var body := JObj(map[IdKey := JStr(""), ChannelKey := JStr(channel)]);
            var reg := Registration("", channel, NoExpiry, None);
            && Validate(v, body) == Success(reg)
            && var order, records := [""], map["" := reg];
            && OrderedKeys(order, records) && KeysMatchIds(records)
            && FirstMatch(order, records, Some("")) == Some("")
            && DeleteTarget(order, records, Some("")) == None
            && IntendedDeleteTarget(order, records, Some("")) == Some("")
  {
  }

  /**
    Under the invariant that every record sits under its own id, the scan
    is a key lookup, so DELETE removes the requested key whenever it is
    present and not empty.
  */
  lemma DeleteTargetIsKeyLookup(order: seq<string>, records: map<string, Registration>, id: string)
    requires OrderedKeys(order, records)
    requires KeysMatchIds(records)
    ensures DeleteTarget(order, records, Some(id)) == if id in records && id != "" then Some(id) else None
  {
    ScanIsKeyLookup(order, records, id);
  }

  class View {
    const registry: Registry

    constructor (registry: Registry)
      ensures this.registry == registry
    {
      this.registry := registry;
    }

    /**
      POST: validate the body and upsert it under its id. `request` is the
      decoded body, None when it is not JSON; `saveSucceeds` is the outcome
      of saving the registry; `written` is the registry handed to the save.
    */
    method Post(v: Validators, request: Option<Json>, saveSucceeds: bool) returns (resp: Response, written: Option<map<string, Registration>>)
      requires registry.Valid()
      modifies registry
      ensures registry.Valid()
      ensures request.None? ==>
        && resp == Reply(StatusBadRequest, Text(InvalidJsonText))
        && written.None? && unchanged(registry)
      ensures request.Some? && Validate(v, request.value).Failure? ==>
        && resp == Reply(StatusBadRequest, Violation(Validate(v, request.value).error))
        && written.None? && unchanged(registry)
      ensures request.Some? && Validate(v, request.value).Success? ==>
        var reg := Validate(v, request.value).value;
        && written == Some(old(registry.records)[reg.id := reg])
        && (saveSucceeds ==>
              && resp == Reply(StatusOk, Text(RegisteredText))
              && registry.records == old(registry.records)[reg.id := reg]
              && registry.order == if reg.id in old(registry.records) then old(registry.order) else old(registry.order) + [reg.id])
        && (!saveSucceeds ==>
              && resp == Reply(StatusServerError, Text(SaveErrorText))
              && registry.records == old(registry.records)
              && registry.order == old(registry.order))
      ensures KeysMatchIds(old(registry.records)) ==> KeysMatchIds(registry.records)
    {
      written := None;
      if request.None? {
        resp := Reply(StatusBadRequest, Text(InvalidJsonText));
        return;
      }
      var checked := Validate(v, request.value);
      if checked.Failure? {
        resp := Reply(StatusBadRequest, Violation(checked.error));
        return;
      }
      var data := checked.value;
      var channelId := data.id;
      var previous := if channelId in registry.records then Some(registry.records[channelId]) else None;
      registry.Assign(channelId, data);
      written := Some(registry.records);
      if saveSucceeds {
        resp := Reply(StatusOk, Text(RegisteredText));
        return;
      }
      if previous.Some? {
        registry.Assign(channelId, previous.value);
      } else {
        var _ := registry.Pop(channelId);
        WithoutLast(old(registry.order), channelId);
      }
      assert registry.records == old(registry.records);
      resp := Reply(StatusServerError, Text(SaveErrorText));
    }

    /**
      DELETE: remove the record whose stored id the body names, found by
      scanning the values. A missing match is not an error.
    */
    method Delete(request: Option<Json>, saveSucceeds: bool) returns (resp: Response, written: Option<map<string, Registration>>)
      requires registry.Valid()
      modifies registry
      ensures registry.Valid()
      ensures request.None? ==>
        && resp == Reply(StatusBadRequest, Text(InvalidJsonText))
        && written.None? && unchanged(registry)
      ensures request.Some? && !request.value.JObj? ==>
        resp == Uncaught && written.None? && unchanged(registry)
      ensures request.Some? && request.value.JObj? ==>
        var target := DeleteTarget(old(registry.order), old(registry.records), RequestedId(request.value.fields));
        && (target.None? ==>
              && resp == Reply(StatusOk, Text(NotFoundText))
              && written.None? && unchanged(registry))
        && (target.Some? ==>
              var key := target.value;
              && written == Some(old(registry.records) - {key})
              && (saveSucceeds ==>
                    && resp == Reply(StatusOk, Text(UnregisteredText))
                    && registry.records == old(registry.records) - {key}
                    && registry.order == Without(old(registry.order), key))
              && (!saveSucceeds ==>
                    && resp == Reply(StatusServerError, Text(SaveErrorText))
                    && registry.records == old(registry.records)
                    && registry.order == Without(old(registry.order), key) + [key]))
      ensures KeysMatchIds(old(registry.records)) ==> KeysMatchIds(registry.records)
    {
      written := None;
      if request.None? {
        resp := Reply(StatusBadRequest, Text(InvalidJsonText));
        return;
      }
      var data := request.value;
      if !data.JObj? {
        resp := Uncaught;
        return;
      }
      var channelId := RequestedId(data.fields);
      var found := Scan(registry.order, registry.records, channelId);
      if !Truthy(found) {
        resp := Reply(StatusOk, Text(NotFoundText));
        return;
      }
      resp, written := Unregister(found.value, saveSucceeds);
    }

    /** The part of DELETE after a match: pop the key, save, and reinsert the record if the save fails. */
    method Unregister(key: string, saveSucceeds: bool) returns (resp: Response, written: Option<map<string, Registration>>)
      requires registry.Valid()
      requires key in registry.records
      modifies registry
      ensures registry.Valid()
      ensures written == Some(old(registry.records) - {key})
      ensures saveSucceeds ==>
        && resp == Reply(StatusOk, Text(UnregisteredText))
        && registry.records == old(registry.records) - {key}
        && registry.order == Without(old(registry.order), key)
      ensures !saveSucceeds ==>
        && resp == Reply(StatusServerError, Text(SaveErrorText))
        && registry.records == old(registry.records)
        && registry.order == Without(old(registry.order), key) + [key]
    {
      var reg := registry.Pop(key);
      written := Some(registry.records);
      if !saveSucceeds {
        registry.Assign(key, reg);
        assert registry.records == old(registry.records);
        resp := Reply(StatusServerError, Text(SaveErrorText));
        return;
      }
      resp := Reply(StatusOk, Text(UnregisteredText));
    }
  }
}
