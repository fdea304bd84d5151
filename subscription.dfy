/**
  The registration record and SUBSCRIPTION_SCHEMA, the validator that a
  registration POST body must pass before it is stored.
*/
module Subscription {
  import opened Wrappers
  import opened JsonValue

  const IdKey := "id"
  const ChannelKey := "channel"
  const ExpiryKey := "expiry"
  const NameKey := "name"

  /** The keys the schema knows; any other key is rejected. */
  const SchemaKeys: set<string> := {IdKey, ChannelKey, ExpiryKey, NameKey}
  const RequiredKeys: set<string> := {IdKey, ChannelKey}

  /** The `expiry` of a stored record: left out of the body, given as null, or a count. */
  datatype Expiry = NoExpiry | NullExpiry | ExpiresAt(at: nat)

  /** A stored registration: the validated body, with the optional keys present only when given. */
  datatype Registration = Registration(id: string, channel: string, expiry: Expiry, name: Option<string>)

  /** Which constraint of the schema a rejected body violates. */
  datatype SchemaError =
    | NotAnObject
    | ExtraKeys(keys: set<string>)
    | MissingKey(key: string)
    | InvalidValue(key: string)

  /**
    The coercions the schema delegates to the validation library:
    `cv.string`, `cv.url` and `vol.Coerce(int)`. Each gives the coerced
    value, or None when the library rejects the input.
  */
  datatype Validators = Validators(
    text: Json -> Option<string>,
    url: Json -> Option<string>,
    integer: Json -> Option<int>)

  /** `vol.Any(None, cv.positive_int)`: null, or an integer coercion bounded below by 0. */
  function CheckExpiry(v: Validators, x: Json): Option<Expiry>
  {
    if x.JNull? then Some(NullExpiry)
    else match v.integer(x)
      case Some(n) => if n >= 0 then Some(ExpiresAt(n)) else None
      case None => None
  }

  /** The validator the schema attaches to key `k`. */
  predicate FieldAccepted(v: Validators, k: string, x: Json)
  {
    if k == ChannelKey then v.url(x).Some?
    else if k == ExpiryKey then CheckExpiry(v, x).Some?
    else v.text(x).Some?
  }

  /** A body the schema accepts: an object with the required keys, no unknown key, and every value accepted. */
  ghost predicate Conforms(v: Validators, data: Json)
  {
    && data.JObj?
    && RequiredKeys <= data.fields.Keys
    && forall k :: k in data.fields ==> k in SchemaKeys && FieldAccepted(v, k, data.fields[k])
  }

  /** The reported violation is one the body really commits. */
  ghost predicate Describes(e: SchemaError, v: Validators, data: Json)
  {
    match e
    case NotAnObject => !data.JObj?
    case ExtraKeys(ks) => data.JObj? && ks != {} && ks == data.fields.Keys - SchemaKeys
    case MissingKey(k) => data.JObj? && k in RequiredKeys && k !in data.fields
    case InvalidValue(k) => data.JObj? && k in data.fields && !FieldAccepted(v, k, data.fields[k])
  }

  /** The record holds exactly the coerced values of the keys the body gives, and nothing else. */
  ghost predicate Holds(v: Validators, data: Json, reg: Registration)
  {
    && data.JObj?
    && var f := data.fields;
    && IdKey in f && v.text(f[IdKey]) == Some(reg.id)
    && ChannelKey in f && v.url(f[ChannelKey]) == Some(reg.channel)
    && (if ExpiryKey in f then CheckExpiry(v, f[ExpiryKey]) == Some(reg.expiry) else reg.expiry == NoExpiry)
    && (if NameKey in f then reg.name.Some? && v.text(f[NameKey]) == reg.name else reg.name == None)
  }

  /** SUBSCRIPTION_SCHEMA applied to a decoded body. */
  function Validate(v: Validators, data: Json): (r: Result<Registration, SchemaError>)
    ensures r.Success? <==> Conforms(v, data)
    ensures r.Success? ==> Holds(v, data, r.value)
    ensures r.Failure? ==> Describes(r.error, v, data)
  {
    if !data.JObj? then Failure(NotAnObject)
    else
      var f := data.fields;
      var extra := f.Keys - SchemaKeys;
      if extra != {} then Failure(ExtraKeys(extra))
      else if IdKey !in f then Failure(MissingKey(IdKey))
      else if ChannelKey !in f then Failure(MissingKey(ChannelKey))
      else if v.text(f[IdKey]).None? then Failure(InvalidValue(IdKey))
      else if v.url(f[ChannelKey]).None? then Failure(InvalidValue(ChannelKey))
      else if ExpiryKey in f && CheckExpiry(v, f[ExpiryKey]).None? then Failure(InvalidValue(ExpiryKey))
      else if NameKey in f && v.text(f[NameKey]).None? then Failure(InvalidValue(NameKey))
      else
        assert forall k :: k in f ==> k !in extra && k in SchemaKeys;
        Success(Registration(
          v.text(f[IdKey]).value,
          v.url(f[ChannelKey]).value,
          if ExpiryKey in f then CheckExpiry(v, f[ExpiryKey]).value else NoExpiry,
          if NameKey in f then v.text(f[NameKey]) else None))
  }

  /** The JSON object a stored record is written back as by save_json. */
  function ToJson(reg: Registration): (j: Json)
  {
    var base := map[IdKey := JStr(reg.id), ChannelKey := JStr(reg.channel)];
    var withExpiry :=
      match reg.expiry
      case NoExpiry => base
      case NullExpiry => base[ExpiryKey := JNull]
      case ExpiresAt(n) => base[ExpiryKey := JNum(n)];
    JObj(if reg.name.Some? then withExpiry[NameKey := JStr(reg.name.value)] else withExpiry)
  }

  /**
    A stored record, written out and read back, passes the schema again and
    yields the same record, provided the library's coercions leave their own
    results unchanged.
  */
  lemma RevalidateStored(v: Validators, reg: Registration)
    requires v.text(JStr(reg.id)) == Some(reg.id)
    requires v.url(JStr(reg.channel)) == Some(reg.channel)
    requires reg.expiry.ExpiresAt? ==> v.integer(JNum(reg.expiry.at)) == Some(reg.expiry.at)
    requires reg.name.Some? ==> v.text(JStr(reg.name.value)) == reg.name
    ensures Validate(v, ToJson(reg)) == Success(reg)
  {
  }
}
