# Ambient Weather and GPSLogger adapters: a Dafny model

This project models the logic of two Home Assistant integrations:

- **Ambient Weather weather platform** (module `AmbientWeather`, `ambient.dfy`). A static table maps each
  generic weather attribute (temperature, humidity, wind bearing, wind speed, pressure) to the vendor's
  field name, separately for indoor and outdoor sensors. Setup creates one outdoor entity per station.
  It adds one indoor entity per station whose last reading has a non-null `tempinf`, in station order.
  It hands the list to the host only when the list is non-empty. An entity is named
  `"<location>: Indoor"` or `"<location>: Outdoor"` and starts from the station's last reading. Its
  accessors look up their attribute's field in that cached reading. An update replaces the cache with
  the first fetched reading and leaves it alone when nothing was fetched.
- **GPSLogger webhook** (module `GpsLogger`, `gpslogger.dfy`). The posted form is validated against the
  webhook schema. Latitude, longitude and device are required. Accuracy defaults to 200 and battery to
  -1. Speed, direction, altitude, provider and activity are optional, and no other key is allowed. The
  device id is coerced by removing every hyphen. A rejected form is answered with 422 and the schema's
  complaints, and nothing is dispatched. An accepted form dispatches exactly one tracker update: the
  id, the (latitude, longitude) pair, battery, accuracy, and a bag of exactly the five optional keys.
  It is then answered with 200 and `"Setting location for <device>"`.

`wrappers.dfy` holds `Option` and `Result`.

Modelling choices:

- The entity class `AmbientWeatherDevice` has the fields the source assigns: the station, the mode, the
  cached reading and the name. `Update` is a method that changes `data` only. The accessors are
  functions that read the object.
- `setup_platform` is a method with a loop that appends entities. It is proved against the
  specification function `Plan`, and the station-order lemmas are proved about `Plan`.
- The source's `INDOOR = True` and `OUTDOOR = False` become the datatype `Mode`. The five host attribute
  constants become the datatype `Attr`.
- A vendor reading is a map from field name to an optional value, where `None` is a JSON null. Reading
  a missing field and reading a null field both give `None`, as `dict.get(field, None)` does.
- A station is its location (`info['location']`) and its `last_data`. The result of
  `get_data(limit=1)` is a parameter of `Update`, and the station list is a parameter of
  `SetupPlatform`.
- The schema's value validators (`cv.latitude`, `cv.longitude`, `vol.Coerce(float)`, `cv.string`) are
  function-valued parameters (`Validators`). Each returns the coerced value, or `None` when it rejects
  its input. Their ranges and parsing rules are not part of this model. Floats are `real`.
- The schema library inserts the defaults 200 and -1 before validation, and `float()` turns them into
  200.0 and -1.0 exactly. So an omitted accuracy or battery gets those values directly.
- The schema library rejects unknown keys by default, so an extra key is a complaint (`Extra`).
- The dispatcher call is part of the handler's result (`Handled.dispatched`). The HTTP response is a
  status and a body.
- Status codes are 200 (`HTTP_OK`) and 422 (`HTTP_UNPROCESSABLE_ENTITY`). The platform's Fahrenheit
  unit string is `°F`. These come from the host's constants module, which is not part of this model.

## Model

| member | source | states |
|---|---|---|
| `AmbientWeather.FieldTableExact` | homeassistant/components/weather/ambient.py:38-111 | outdoor temperature, humidity, wind bearing, wind speed and pressure read `tempf`, `humidity`, `winddir`, `windspeedmph`, `baromrelin`; indoor temperature and humidity read `tempinf`, `humidityin`; indoor has no other field |
| `AmbientWeather.FieldTableInjective` | homeassistant/components/weather/ambient.py:38-111 | no two (mode, attribute) entries of the table name the same vendor field |
| `AmbientWeather.EntityNameShape` | homeassistant/components/weather/ambient.py:162-164 | an entity is named `<location>: Indoor` in indoor mode and `<location>: Outdoor` in outdoor mode |
| `AmbientWeather.EntityNameInjective` | homeassistant/components/weather/ambient.py:162-164 | the name determines the location and the mode, so a station's two entities never share a name |
| `AmbientWeather.PlanOutdoor` | homeassistant/components/weather/ambient.py:142-148 | setup creates exactly one outdoor entity per station, in station order |
| `AmbientWeather.PlanIndoor` | homeassistant/components/weather/ambient.py:142-148 | setup creates indoor entities for exactly the stations whose `last_data['tempinf']` is present and not null, in station order |
| `AmbientWeather.PlanLength` | homeassistant/components/weather/ambient.py:142-151 | setup creates one entity per station plus one per indoor-capable station, so the list is non-empty exactly when there is a station |
| `AmbientWeather.SetupPlatform` | homeassistant/components/weather/ambient.py:129-151 | each created entity is a fresh object, distinct from every other created entity, built from the plan entry at its position (outdoor, then indoor if present, per station); the list is handed to the host exactly when there is at least one station |
| `AmbientWeather.AmbientWeatherDevice.constructor` | homeassistant/components/weather/ambient.py:157-164 | a new entity keeps its station and mode, its cache equals the station's `last_data`, and its name, which `Name()` returns, is built from the location and the mode |
| `AmbientWeather.AmbientWeatherDevice.Get` | homeassistant/components/weather/ambient.py:166-172 | outdoors, temperature, humidity, wind bearing, wind speed and pressure are the cached `tempf`, `humidity`, `winddir`, `windspeedmph` and `baromrelin`; indoors, temperature and humidity are the cached `tempinf` and `humidityin` and every other attribute is absent; a missing or null field reads as absent |
| `AmbientWeather.AmbientWeatherDevice.Temperature` | homeassistant/components/weather/ambient.py:184-187 | temperature is the cached `tempinf` indoors and `tempf` outdoors |
| `AmbientWeather.AmbientWeatherDevice.Humidity` | homeassistant/components/weather/ambient.py:194-197 | humidity is the cached `humidityin` indoors and `humidity` outdoors |
| `AmbientWeather.AmbientWeatherDevice.WindSpeed` | homeassistant/components/weather/ambient.py:199-202 | wind speed is always absent indoors and the cached `windspeedmph` outdoors |
| `AmbientWeather.AmbientWeatherDevice.WindBearing` | homeassistant/components/weather/ambient.py:204-207 | wind bearing is always absent indoors and the cached `winddir` outdoors |
| `AmbientWeather.AmbientWeatherDevice.Pressure` | homeassistant/components/weather/ambient.py:209-212 | pressure is always absent indoors and the cached `baromrelin` outdoors |
| `AmbientWeather.AmbientWeatherDevice.Update` | homeassistant/components/weather/ambient.py:219-227 | a non-empty fetch sets the cache to its first reading; an empty fetch leaves the cache unchanged; station, mode and name never change, so `Name()` returns what it returned before |
| `AmbientWeather.FixedAccessors` | homeassistant/components/weather/ambient.py:174-217 | in every state the attribution is "Ambient Weather", the unit is Fahrenheit and the condition is absent |
| `GpsLogger.StripHyphens` | homeassistant/components/gpslogger/__init__.py:39-41 | the coerced id is never longer than the id |
| `GpsLogger.StripHyphensHasNoHyphen` | homeassistant/components/gpslogger/__init__.py:39-41 | the coerced id contains no `-` |
| `GpsLogger.StripHyphensLength` | homeassistant/components/gpslogger/__init__.py:39-41 | the coerced id's length is the id's length minus its number of hyphens |
| `GpsLogger.StripHyphensKeepsOthers` | homeassistant/components/gpslogger/__init__.py:39-41 | every character other than `-` occurs as often in the coerced id as in the id |
| `GpsLogger.StripHyphensIsSubsequence` | homeassistant/components/gpslogger/__init__.py:39-41 | the coerced id keeps the id's characters in their original order |
| `GpsLogger.StripHyphensNoop` | homeassistant/components/gpslogger/__init__.py:39-41 | an id without hyphens is unchanged |
| `GpsLogger.StripHyphensIdempotent` | homeassistant/components/gpslogger/__init__.py:39-41 | coercing twice equals coercing once |
| `GpsLogger.StripHyphensUnique` | homeassistant/components/gpslogger/__init__.py:39-41 | any hyphen-free, order-preserving subsequence of the id that is as long as the id less its hyphens is the coerced id, so these properties pin the coercion down |
| `GpsLogger.ErrorsIffIllFormed` | homeassistant/components/gpslogger/__init__.py:44-55 | the schema has no complaint exactly when all required keys are present, no key is unknown, and every value passes its validator |
| `GpsLogger.Validate` | homeassistant/components/gpslogger/__init__.py:44-55 | validation succeeds exactly for well-formed forms and otherwise fails with every complaint (never none); on success the device is the hyphen-free id, the coordinates are the validators' values, and accuracy and battery are the coerced values or 200 and -1 when omitted |
| `GpsLogger.AttrsOf` | homeassistant/components/gpslogger/__init__.py:76-82 | the attribute bag has exactly the keys speed, direction, altitude, provider and activity |
| `GpsLogger.AttrsMatchForm` | homeassistant/components/gpslogger/__init__.py:76-82 | each bag entry is the value the form's field validates to, or absent when the field was omitted |
| `GpsLogger.HandleWebhook` | homeassistant/components/gpslogger/__init__.py:66-99 | a rejected form gets 422 with the schema's complaints and dispatches nothing; an accepted one gets 200 with `Setting location for <device>`; it dispatches exactly one `gpslogger_tracker_update` carrying the coerced id, (latitude, longitude), battery, accuracy and the five-key bag |
| `GpsLogger.DefaultsApplied` | homeassistant/components/gpslogger/__init__.py:35-49 | an omitted accuracy is dispatched as 200 and an omitted battery as -1 |
| `GpsLogger.AttrsAbsentIffOmitted` | homeassistant/components/gpslogger/__init__.py:76-82 | in an accepted form a bag entry is absent exactly when its key was omitted |
| `GpsLogger.RequiredFieldRejected` | homeassistant/components/gpslogger/__init__.py:44-74 | a missing or rejected latitude, longitude or device gives 422, a complaint naming that key, and no dispatch |
| `GpsLogger.DispatchedDeviceNormalised` | homeassistant/components/gpslogger/__init__.py:84-94 | the dispatched device id contains no hyphen, and coercing it again leaves it unchanged |

## Left out

- HTTP and async plumbing is not modelled: reading the form with `await request.post()`, building the
  `web.Response`, `async_setup`, `async_setup_entry`, `async_unload_entry`, webhook registration and
  `config_entry_flow.register_webhook_flow`. These are host integration points; the form is a parameter
  and the response is a value.
- `async_dispatcher_send` and the event bus are host facilities. The model records the call's arguments
  in the handler's result and leaves out what listeners do with them.
- `dict(await request.post())` on a form with a repeated key is not modelled; the form is a map with one
  value per key.
- HandleWebhook: the 422 body is the whole set of the schema's complaints. The source sends only the
  message of the first complaint, in the schema library's order, and that library is not part of this model.
- The bounds of `cv.latitude` and `cv.longitude`, float parsing in `vol.Coerce(float)` and the rules of
  `cv.string` belong to the validation library. They are parameters of the model.
- The Ambient Weather network client (`AmbientAPI`, `get_devices`, `get_data`) and its `requests`
  exceptions are not modelled. Stations and fetch results are parameters, and network failures, which
  the source lets propagate to the host, are not represented.
- AmbientWeatherDevice.constructor: a station whose `info` lacks `location` makes the source raise
  `KeyError`. The model's station always has a location, so that error is not represented.
- The source's entity shares the station's `last_data` dictionary object, while the model copies the
  map value. Nothing in the source changes that dictionary in place, so the two behave the same here.
- SetupPlatform: `add_entities(devices, True)` also asks the host to run `update` on each entity before
  adding it. The model returns the list and whether it is handed over; the host's scheduling of that
  update is not modelled.
- `PLATFORM_SCHEMA` (API key, application key, URL) is configuration validation by the host's library,
  and its values only reach the network client.
- `Throttle` and `MIN_TIME_BETWEEN_UPDATES` are a host timing facility, and the module never applies
  them. Logging has no effect on state.
