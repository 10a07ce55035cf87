/** The GPSLogger webhook: a form of location fields is validated against a
    fixed schema; an accepted form is republished as one tracker update and
    answered with 200, a rejected one is answered with 422 and dispatches
    nothing. */
module GpsLogger {
  import opened Wrappers

  /** The dispatcher signal: the domain `gpslogger` followed by `_tracker_update`. */
  const TrackerUpdateSignal: string := "gpslogger_tracker_update"

  const HttpOk: int := 200
  const HttpUnprocessableEntity: int := 422

  const DefaultAccuracy: real := 200.0
  const DefaultBattery: real := -1.0

  // ---------------------------------------------------------------------
  // Device id coercion: every hyphen is removed
  // ---------------------------------------------------------------------

  /** The id with every hyphen removed. */
  function StripHyphens(s: string): (r: string)
    ensures |r| <= |s|
  {
    if s == [] then []
    else (if s[0] == '-' then [] else [s[0]]) + StripHyphens(s[1..])
  }

  /** The number of occurrences of `c` in `s`. */
  function Count(s: string, c: char): (n: nat)
    ensures n <= |s|
  {
    if s == [] then 0 else (if s[0] == c then 1 else 0) + Count(s[1..], c)
  }

  /** `t` is a subsequence of `s`: its characters occur in `s` in the same
      order (matched greedily from the left). */
  predicate IsSubsequence(t: string, s: string)
    decreases |s|
  {
    if t == [] then true
    else if s == [] then false
    else if t[0] == s[0] then IsSubsequence(t[1..], s[1..])
    else IsSubsequence(t, s[1..])
  }

  /** The coerced id has no hyphen. */
  lemma {:induction false} StripHyphensHasNoHyphen(s: string)
    ensures '-' !in StripHyphens(s)
  {
    if s != [] {
      StripHyphensHasNoHyphen(s[1..]);
    }
  }

  /** The coerced id is as long as the id less its hyphens. */
  lemma {:induction false} StripHyphensLength(s: string)
    ensures |StripHyphens(s)| == |s| - Count(s, '-')
  {
    if s != [] {
      StripHyphensLength(s[1..]);
    }
  }

  /** Every other character occurs as often in the coerced id as in the id. */
  lemma {:induction false} StripHyphensKeepsOthers(s: string, c: char)
    requires c != '-'
    ensures Count(StripHyphens(s), c) == Count(s, c)
  {
    if s != [] {
      StripHyphensKeepsOthers(s[1..], c);
      var h := if s[0] == '-' then [] else [s[0]];
      CountAppend(h, StripHyphens(s[1..]), c);
    }
  }

  /** The coerced id keeps the remaining characters in their original order. */
  lemma {:induction false} StripHyphensIsSubsequence(s: string)
    ensures IsSubsequence(StripHyphens(s), s)
  {
    if s != [] {
      StripHyphensIsSubsequence(s[1..]);
      var r := StripHyphens(s);
      if s[0] == '-' {
        StripHyphensHasNoHyphen(s[1..]);
        assert r == StripHyphens(s[1..]);
        if r != [] {
          assert r[0] in r;
        }
      } else {
        assert r == [s[0]] + StripHyphens(s[1..]);
        assert r[1..] == StripHyphens(s[1..]);
      }
    }
  }

  /** An id without hyphens is left as it is. */
  lemma {:induction false} StripHyphensNoop(s: string)
    requires '-' !in s
    ensures StripHyphens(s) == s
  {
    if s != [] {
      assert s[0] in s;
      assert '-' !in s[1..] by {
        forall i | 0 <= i < |s[1..]| ensures s[1..][i] != '-' {
          assert s[1..][i] == s[i + 1];
        }
      }
      StripHyphensNoop(s[1..]);
    }
  }

  /** Coercing an id twice gives what coercing it once gives. */
  lemma StripHyphensIdempotent(s: string)
    ensures StripHyphens(StripHyphens(s)) == StripHyphens(s)
  {
    StripHyphensHasNoHyphen(s);
    StripHyphensNoop(StripHyphens(s));
  }

  /** Counting a character distributes over concatenation. */
  lemma {:induction false} CountAppend(a: string, b: string, c: char)
    ensures Count(a + b, c) == Count(a, c) + Count(b, c)
  {
    if a != [] {
      assert (a + b)[0] == a[0] && (a + b)[1..] == a[1..] + b;
      CountAppend(a[1..], b, c);
    } else {
      assert a + b == b;
    }
  }

  /** A hyphen-free subsequence of `s` is at most as long as `s` less its
      hyphens. */
  lemma {:induction false} HyphenFreeSubsequenceBound(t: string, s: string)
    requires IsSubsequence(t, s) && '-' !in t
    ensures |t| <= |s| - Count(s, '-')
    decreases |s|
  {
    if t != [] && s != [] {
      if t[0] == s[0] {
        assert t[0] in t;
        assert '-' !in t[1..] by {
          forall i | 0 <= i < |t[1..]| ensures t[1..][i] != '-' {
            assert t[1..][i] == t[i + 1];
          }
        }
        HyphenFreeSubsequenceBound(t[1..], s[1..]);
      } else {
        HyphenFreeSubsequenceBound(t, s[1..]);
      }
    }
  }

  /** The coerced id is the only hyphen-free subsequence of the id that is
      as long as the id less its hyphens: removing the hyphens and keeping
      everything else in order characterises the coercion. */
  lemma {:induction false} StripHyphensUnique(s: string, t: string)
    requires IsSubsequence(t, s) && '-' !in t && |t| == |s| - Count(s, '-')
    ensures t == StripHyphens(s)
    decreases |s|
  {
    if s != [] {
      if s[0] == '-' {
        if t != [] {
          assert t[0] in t;
        }
        StripHyphensUnique(s[1..], t);
      } else if t == [] {
        assert false;
      } else if t[0] == s[0] {
        assert t[0] in t;
        assert '-' !in t[1..] by {
          forall i | 0 <= i < |t[1..]| ensures t[1..][i] != '-' {
            assert t[1..][i] == t[i + 1];
          }
        }
        StripHyphensUnique(s[1..], t[1..]);
        assert t == [t[0]] + t[1..];
      } else {
        HyphenFreeSubsequenceBound(t, s[1..]);
        assert false;
      }
    }
  }

  // ---------------------------------------------------------------------
  // The webhook schema
  // ---------------------------------------------------------------------

  /** The value validators the schema applies: `cv.latitude`, `cv.longitude`,
      `vol.Coerce(float)` and `cv.string`. Each yields the coerced value, or
      `None` when it rejects its input. */
  datatype Validators = Validators(
    latitude: string -> Option<real>,
    longitude: string -> Option<real>,
    toFloat: string -> Option<real>,
    toText: string -> Option<string>)

  /** A form as posted: field name to text. */
  type Form = map<string, string>

  const RequiredKeys: set<string> := {"latitude", "longitude", "device"}
  const FloatKeys: set<string> := {"accuracy", "battery", "speed", "direction", "altitude"}
  const TextKeys: set<string> := {"provider", "activity"}
  const SchemaKeys: set<string> := RequiredKeys + FloatKeys + TextKeys

  /** The keys of the attribute bag every tracker update carries. */
  const AttrKeys: set<string> := {"speed", "direction", "altitude", "provider", "activity"}

  /** A complaint of the schema about one key. */
  datatype SchemaError = Missing(key: string) | Invalid(key: string) | Extra(key: string)

  /** Whether the schema's validator for `key` accepts `raw`. The device id
      is coerced by removing hyphens, which accepts every text. */
  predicate Accepts(v: Validators, key: string, raw: string)
  {
    if key == "latitude" then v.latitude(raw).Some?
    else if key == "longitude" then v.longitude(raw).Some?
    else if key == "device" then true
    else if key in FloatKeys then v.toFloat(raw).Some?
    else if key in TextKeys then v.toText(raw).Some?
    else false
  }

  /** Every complaint the schema has about `form`: keys it does not know,
      required keys that are missing, and values their validator rejects. */
  function Errors(v: Validators, form: Form): set<SchemaError>
  {
    (set k | k in form && k !in SchemaKeys :: Extra(k))
    + (set k | k in RequiredKeys && k !in form :: Missing(k))
    + (set k | k in form && k in SchemaKeys && !Accepts(v, k, form[k]) :: Invalid(k))
  }

  /** The form passes the schema: every required key is present, no key is
      unknown, and every value is accepted by its validator. */
  predicate WellFormed(v: Validators, form: Form)
  {
    RequiredKeys <= form.Keys && form.Keys <= SchemaKeys
    && forall k :: k in form ==> Accepts(v, k, form[k])
  }

  /** The schema complains about a form exactly when the form is not well formed. */
  lemma ErrorsIffIllFormed(v: Validators, form: Form)
    ensures Errors(v, form) == {} <==> WellFormed(v, form)
  {
    if !WellFormed(v, form) {
      if !(RequiredKeys <= form.Keys) {
        var k :| k in RequiredKeys && k !in form;
        assert Missing(k) in Errors(v, form);
      } else if !(form.Keys <= SchemaKeys) {
        var k :| k in form && k !in SchemaKeys;
        assert Extra(k) in Errors(v, form);
      } else {
        var k :| k in form && !Accepts(v, k, form[k]);
        assert Invalid(k) in Errors(v, form);
      }
    }
  }

  /** The validated payload, with defaults applied. */
  datatype Ping = Ping(
    device: string,
    latitude: real,
    longitude: real,
    accuracy: real,
    battery: real,
    speed: Option<real>,
    direction: Option<real>,
    altitude: Option<real>,
    provider: Option<string>,
    activity: Option<string>)

  /** The coerced value of an optional float field, absent when the key is. */
  function OptionalFloat(v: Validators, form: Form, key: string): Option<real>
  {
    if key in form then v.toFloat(form[key]) else None
  }

  /** The coerced value of an optional text field, absent when the key is. */
  function OptionalText(v: Validators, form: Form, key: string): Option<string>
  {
    if key in form then v.toText(form[key]) else None
  }

  /** `WEBHOOK_SCHEMA(form)`: the validated payload, or every complaint. */
  function Validate(v: Validators, form: Form): (r: Result<Ping, set<SchemaError>>)
    ensures r.Success? <==> WellFormed(v, form)
    ensures r.Failure? ==> r.error == Errors(v, form) && r.error != {}
    ensures r.Success? ==>
      && r.value.device == StripHyphens(form["device"])
      && Some(r.value.latitude) == v.latitude(form["latitude"])
      && Some(r.value.longitude) == v.longitude(form["longitude"])
      && ("accuracy" in form ==> Some(r.value.accuracy) == v.toFloat(form["accuracy"]))
      && ("accuracy" !in form ==> r.value.accuracy == DefaultAccuracy)
      && ("battery" in form ==> Some(r.value.battery) == v.toFloat(form["battery"]))
      && ("battery" !in form ==> r.value.battery == DefaultBattery)
  {
    ErrorsIffIllFormed(v, form);
    if !WellFormed(v, form) then Failure(Errors(v, form))
    else
      assert v.latitude(form["latitude"]).Some?
        && v.longitude(form["longitude"]).Some? by {
        assert Accepts(v, "latitude", form["latitude"]);
        assert Accepts(v, "longitude", form["longitude"]);
      }
      Success(Ping(
        device := StripHyphens(form["device"]),
        latitude := v.latitude(form["latitude"]).value,
        longitude := v.longitude(form["longitude"]).value,
        accuracy := OptionalFloat(v, form, "accuracy").GetOr(DefaultAccuracy),
        battery := OptionalFloat(v, form, "battery").GetOr(DefaultBattery),
        speed := OptionalFloat(v, form, "speed"),
        direction := OptionalFloat(v, form, "direction"),
        altitude := OptionalFloat(v, form, "altitude"),
        provider := OptionalText(v, form, "provider"),
        activity := OptionalText(v, form, "activity")))
  }

  // ---------------------------------------------------------------------
  // The webhook handler
  // ---------------------------------------------------------------------

  /** A value in the attribute bag. */
  datatype Scalar = Number(x: real) | Text(s: string)

  /** The arguments of the one dispatcher call, in the order the handler
      passes them. */
  datatype TrackerUpdate = TrackerUpdate(
    signal: string,
    device: string,
    location: (real, real),
    battery: real,
    accuracy: real,
    attrs: map<string, Option<Scalar>>)

  /** A response body: the confirmation text, or the schema's complaints. */
  datatype Body = Message(text: string) | ValidationErrors(errors: set<SchemaError>)

  datatype Response = Response(status: int, body: Body)

  /** What handling one request does: the dispatcher calls it makes and the
      response it returns. */
  datatype Handled = Handled(dispatched: seq<TrackerUpdate>, response: Response)

  function FloatScalar(x: Option<real>): Option<Scalar>
  {
    match x
    case Some(f) => Some(Number(f))
    case None => None
  }

  function TextScalar(x: Option<string>): Option<Scalar>
  {
    match x
    case Some(t) => Some(Text(t))
    case None => None
  }

  /** The attribute-bag entry for `key` as the form gives it: the value its
      validator yields, or `None` when the key is absent. */
  function FormAttr(v: Validators, form: Form, key: string): Option<Scalar>
  {
    if key !in form then None
    else if key in FloatKeys then FloatScalar(v.toFloat(form[key]))
    else if key in TextKeys then TextScalar(v.toText(form[key]))
    else None
  }

  /** The attribute bag of a validated payload: always exactly the five
      optional keys. */
  function AttrsOf(p: Ping): (attrs: map<string, Option<Scalar>>)
    ensures attrs.Keys == AttrKeys
  {
    map[
      "speed" := FloatScalar(p.speed),
      "direction" := FloatScalar(p.direction),
      "altitude" := FloatScalar(p.altitude),
      "provider" := TextScalar(p.provider),
      "activity" := TextScalar(p.activity)
    ]
  }

  /** The attribute bag built from a validated payload holds, under each of
      its keys, what the form gives for that key. */
  lemma AttrsMatchForm(v: Validators, form: Form)
    requires WellFormed(v, form)
    ensures forall k :: k in AttrKeys ==> AttrsOf(Validate(v, form).value)[k] == FormAttr(v, form, k)
  {
    var attrs := AttrsOf(Validate(v, form).value);
    assert attrs["speed"] == FormAttr(v, form, "speed");
    assert attrs["direction"] == FormAttr(v, form, "direction");
    assert attrs["altitude"] == FormAttr(v, form, "altitude");
    assert attrs["provider"] == FormAttr(v, form, "provider");
    assert attrs["activity"] == FormAttr(v, form, "activity");
  }

  /** `handle_webhook`: a form the schema rejects is answered with 422 and
      the schema's complaints and dispatches nothing; an accepted form
      dispatches exactly one tracker update and is answered with 200 and a
      text naming the device. */
  function HandleWebhook(v: Validators, form: Form): (r: Handled)
    ensures r.response.status == HttpOk <==> WellFormed(v, form)
    ensures !WellFormed(v, form) ==>
      && r.dispatched == []
      && r.response == Response(HttpUnprocessableEntity, ValidationErrors(Errors(v, form)))
      && Errors(v, form) != {}
    ensures WellFormed(v, form) ==>
      && |r.dispatched| == 1
      && r.dispatched[0].signal == "gpslogger_tracker_update"
      && r.dispatched[0].device == StripHyphens(form["device"])
      && Some(r.dispatched[0].location.0) == v.latitude(form["latitude"])
      && Some(r.dispatched[0].location.1) == v.longitude(form["longitude"])
      && r.dispatched[0].battery == Validate(v, form).value.battery
      && r.dispatched[0].accuracy == Validate(v, form).value.accuracy
      && r.dispatched[0].attrs.Keys == AttrKeys
      && (forall k :: k in AttrKeys ==> r.dispatched[0].attrs[k] == FormAttr(v, form, k))
      && r.response == Response(HttpOk, Message("Setting location for " + StripHyphens(form["device"])))
  {
    match Validate(v, form)
    case Failure(errors) =>
      Handled([], Response(HttpUnprocessableEntity, ValidationErrors(errors)))
    case Success(data) =>
      AttrsMatchForm(v, form);
      var attrs := AttrsOf(data);
      var device := data.device;
      Handled(
        [TrackerUpdate(TrackerUpdateSignal, device, (data.latitude, data.longitude), data.battery, data.accuracy, attrs)],
        Response(HttpOk, Message("Setting location for " + device)))
  }

  /** An omitted accuracy is dispatched as 200 and an omitted battery as -1. */
  lemma DefaultsApplied(v: Validators, form: Form)
    requires WellFormed(v, form)
    ensures "accuracy" !in form ==> HandleWebhook(v, form).dispatched[0].accuracy == 200.0
    ensures "battery" !in form ==> HandleWebhook(v, form).dispatched[0].battery == -1.0
  {
  }

  /** In an accepted form each attribute-bag entry is absent exactly when
      its key was left out of the form. */
  lemma AttrsAbsentIffOmitted(v: Validators, form: Form, key: string)
    requires WellFormed(v, form) && key in AttrKeys
    ensures HandleWebhook(v, form).dispatched[0].attrs[key].None? <==> key !in form
  {
    if key in form {
      assert Accepts(v, key, form[key]);
    }
  }

  /** A form without latitude, longitude or device, or with a value one of
      them rejects, is answered with 422 naming that key and dispatches
      nothing. */
  lemma RequiredFieldRejected(v: Validators, form: Form, key: string)
    requires key in RequiredKeys
    requires key !in form || !Accepts(v, key, form[key])
    ensures HandleWebhook(v, form).dispatched == []
    ensures HandleWebhook(v, form).response.status == HttpUnprocessableEntity
    ensures Missing(key) in Errors(v, form) || Invalid(key) in Errors(v, form)
  {
    if key in form {
      assert Invalid(key) in Errors(v, form);
    } else {
      assert Missing(key) in Errors(v, form);
    }
  }

  /** The device id dispatched never contains a hyphen, and dispatching the
      coerced id again would not change it. */
  lemma DispatchedDeviceNormalised(v: Validators, form: Form)
    requires WellFormed(v, form)
    ensures '-' !in HandleWebhook(v, form).dispatched[0].device
    ensures StripHyphens(HandleWebhook(v, form).dispatched[0].device) == HandleWebhook(v, form).dispatched[0].device
  {
    StripHyphensHasNoHyphen(form["device"]);
    StripHyphensIdempotent(form["device"]);
  }
}
