/** The Ambient Weather platform: a static table that maps each generic
    weather attribute to the vendor's field name, one entity per outdoor
    station plus one per station that reports indoor telemetry, and entities
    whose accessors look their attribute up in a cached reading that an
    update replaces. */
module AmbientWeather {
  import opened Wrappers

  /** Whether an entity reports a station's indoor or its outdoor sensors
      (the source's INDOOR == True and OUTDOOR == False). */
  datatype Mode = Indoor | Outdoor

  /** The generic weather attributes the entities expose. */
  datatype Attr = Temperature | Humidity | WindBearing | WindSpeed | Pressure

  /** A scalar the vendor reports for a field. */
  datatype Value = Number(x: real) | Text(s: string)

  /** One vendor reading, keyed by vendor field name; `None` is a field
      present with a null value. */
  type Reading = map<string, Option<Value>>

  /** A station as the vendor client describes it: its configured location
      and the last reading it holds. */
  datatype Device = Device(location: string, lastData: Reading)

  const Attribution: string := "Ambient Weather"
  const TempFahrenheit: string := "°F"

  /** The label of each mode in an entity's name (`MAP_MODE_STRING`). */
  function ModeString(mode: Mode): string
  {
    match mode
    case Indoor => "Indoor"
    case Outdoor => "Outdoor"
  }

  /** The vendor field that holds each attribute, per mode (`MAP_FIELD`). */
  function MapField(mode: Mode): map<Attr, string>
  {
    match mode
    case Indoor => map[Humidity := "humidityin", Temperature := "tempinf"]
    case Outdoor => map[
      WindBearing := "winddir",
      WindSpeed := "windspeedmph",
      Humidity := "humidity",
      Temperature := "tempf",
      Pressure := "baromrelin"
    ]
  }

  /** The vendor field for `attr` in `mode`, or `None` when the table has no
      entry for it. */
  function FieldFor(mode: Mode, attr: Attr): Option<string>
  {
    if attr in MapField(mode) then Some(MapField(mode)[attr]) else None
  }

  /** `reading.get(field, None)`, with a null value read as absent. */
  function ReadingValue(reading: Reading, field: string): Option<Value>
  {
    if field in reading then reading[field] else None
  }

  /** The table is exactly the one the vendor's field list gives: five
      outdoor fields and the indoor temperature and humidity, nothing more. */
  lemma FieldTableExact(attr: Attr)
    ensures FieldFor(Outdoor, attr) == Some(match attr
                                           case Temperature => "tempf"
                                           case Humidity => "humidity"
                                           case WindBearing => "winddir"
                                           case WindSpeed => "windspeedmph"
                                           case Pressure => "baromrelin")
    ensures FieldFor(Indoor, attr) == match attr
                                      case Temperature => Some("tempinf")
                                      case Humidity => Some("humidityin")
                                      case _ => None
  {
  }

  /** Within one mode no two attributes read the same vendor field, and no
      indoor field is also an outdoor field. */
  lemma FieldTableInjective(m1: Mode, a1: Attr, m2: Mode, a2: Attr)
    requires FieldFor(m1, a1).Some? && FieldFor(m1, a1) == FieldFor(m2, a2)
    ensures m1 == m2 && a1 == a2
  {
  }

  /** The location, a colon and a space, then the mode's label. */
  function EntityName(location: string, mode: Mode): string
  {
    location + ": " + ModeString(mode)
  }

  /** An entity's name determines both the location and the mode it was
      built from, so the indoor and outdoor entities of one station never
      share a name. */
  lemma {:induction false} EntityNameInjective(l1: string, m1: Mode, l2: string, m2: Mode)
    requires EntityName(l1, m1) == EntityName(l2, m2)
    ensures l1 == l2 && m1 == m2
  {
    EntityNameShape(l1);
    EntityNameShape(l2);
    SuffixesDiffer(l1, l2);
    SuffixesDiffer(l2, l1);
    var n := EntityName(l1, m1);
    assert l1 == n[..|l1|] && l2 == n[..|l2|];
  }

  /** A name ending in ": Indoor" never equals one ending in ": Outdoor". */
  lemma SuffixesDiffer(li: string, lo: string)
    ensures li + ": Indoor" != lo + ": Outdoor"
  {
    var a, b := li + ": Indoor", lo + ": Outdoor";
    if |a| == |b| {
      assert a[|a| - 5] == 'n';
      assert b[|b| - 5] == 't';
    }
  }

  /** The name is "<location>: Indoor" or "<location>: Outdoor". */
  lemma EntityNameShape(location: string)
    ensures EntityName(location, Indoor) == location + ": Indoor"
    ensures EntityName(location, Outdoor) == location + ": Outdoor"
  {
  }

  /** Whether setup adds an indoor entity for `d`: its last reading holds a
      non-null `tempinf`. */
  predicate HasIndoor(d: Device)
  {
    ReadingValue(d.lastData, "tempinf").Some?
  }

  /** The station and mode an entity is built from. */
  datatype EntitySpec = EntitySpec(device: Device, mode: Mode)

  /** The entities setup creates for one station, in creation order. */
  function EntitiesFor(d: Device): seq<EntitySpec>
  {
    [EntitySpec(d, Outdoor)] + if HasIndoor(d) then [EntitySpec(d, Indoor)] else []
  }

  /** The entities setup creates for a list of stations, in creation order. */
  function Plan(devices: seq<Device>): seq<EntitySpec>
  {
    if devices == [] then []
    else Plan(devices[..|devices| - 1]) + EntitiesFor(devices[|devices| - 1])
  }

  /** The stations with indoor telemetry, in order. */
  function IndoorDevices(devices: seq<Device>): seq<Device>
  {
    if devices == [] then []
    else IndoorDevices(devices[..|devices| - 1])
         + if HasIndoor(devices[|devices| - 1]) then [devices[|devices| - 1]] else []
  }

  /** The stations of the entities in `specs` that have mode `mode`, in order. */
  function StationsIn(specs: seq<EntitySpec>, mode: Mode): seq<Device>
  {
    if specs == [] then []
    else StationsIn(specs[..|specs| - 1], mode)
         + if specs[|specs| - 1].mode == mode then [specs[|specs| - 1].device] else []
  }

  /** Picking the stations of one mode distributes over concatenation. */
  lemma {:induction false} StationsInAppend(a: seq<EntitySpec>, b: seq<EntitySpec>, mode: Mode)
    ensures StationsIn(a + b, mode) == StationsIn(a, mode) + StationsIn(b, mode)
    decreases |b|
  {
    if b == [] {
      assert a + b == a;
    } else {
      var b' := b[..|b| - 1];
      assert (a + b)[..|a + b| - 1] == a + b';
      StationsInAppend(a, b', mode);
    }
  }

  /** Setup creates exactly one outdoor entity per station, in station order. */
  lemma {:induction false} PlanOutdoor(devices: seq<Device>)
    ensures StationsIn(Plan(devices), Outdoor) == devices
  {
    if devices != [] {
      var init := devices[..|devices| - 1];
      var d := devices[|devices| - 1];
      PlanOutdoor(init);
      StationsInAppend(Plan(init), EntitiesFor(d), Outdoor);
      StationsInAppend([EntitySpec(d, Outdoor)], if HasIndoor(d) then [EntitySpec(d, Indoor)] else [], Outdoor);
      assert StationsIn([EntitySpec(d, Outdoor)], Outdoor) == [d] by {
        assert [EntitySpec(d, Outdoor)][..0] == [];
      }
      if HasIndoor(d) {
        assert [EntitySpec(d, Indoor)][..0] == [];
      }
      assert devices == init + [d];
    }
  }

  /** Setup creates one indoor entity for exactly the stations whose last
      reading has a non-null `tempinf`, in station order. */
  lemma {:induction false} PlanIndoor(devices: seq<Device>)
    ensures StationsIn(Plan(devices), Indoor) == IndoorDevices(devices)
  {
    if devices != [] {
      var init := devices[..|devices| - 1];
      var d := devices[|devices| - 1];
      PlanIndoor(init);
      StationsInAppend(Plan(init), EntitiesFor(d), Indoor);
      StationsInAppend([EntitySpec(d, Outdoor)], if HasIndoor(d) then [EntitySpec(d, Indoor)] else [], Indoor);
      assert StationsIn([EntitySpec(d, Outdoor)], Indoor) == [] by {
        assert [EntitySpec(d, Outdoor)][..0] == [];
      }
      if HasIndoor(d) {
        assert [EntitySpec(d, Indoor)][..0] == [];
      }
    }
  }

  /** Setup creates one entity per station plus one per station with indoor
      telemetry, so it hands entities to the host exactly when there is at
      least one station. */
  lemma {:induction false} PlanLength(devices: seq<Device>)
    ensures |Plan(devices)| == |devices| + |IndoorDevices(devices)|
    ensures Plan(devices) != [] <==> devices != []
  {
    if devices != [] {
      PlanLength(devices[..|devices| - 1]);
    }
  }

  /** A weather entity for one station in one mode, holding the last reading
      it fetched. */
  class AmbientWeatherDevice {
    var dev: Device
    var mode: Mode
    var data: Reading
    var name: string

    /** The entity starts from the station's last reading and takes its name
        from the station's location and its mode. */
    constructor (dev: Device, mode: Mode := Outdoor)
      ensures this.dev == dev && this.mode == mode
      ensures data == dev.lastData
      ensures name == EntityName(dev.location, mode)
      ensures Name() == EntityName(dev.location, mode)
    {
      this.dev := dev;
      this.mode := mode;
      data := dev.lastData;
      name := EntityName(dev.location, mode);
    }

    /** Whether this entity is the one `spec` describes, freshly built. */
    predicate Describes(spec: EntitySpec)
      reads this
    {
      dev == spec.device && mode == spec.mode && data == spec.device.lastData
      && name == EntityName(spec.device.location, spec.mode)
    }

    /** The cached value of `attr`: absent when the table has no field for
        it in this mode, or when the reading lacks that field or holds null. */
    function Get(attr: Attr): (r: Option<Value>)
      reads this
      ensures r == match (mode, attr)
                   case (Outdoor, Temperature) => ReadingValue(data, "tempf")
                   case (Outdoor, Humidity) => ReadingValue(data, "humidity")
                   case (Outdoor, WindBearing) => ReadingValue(data, "winddir")
                   case (Outdoor, WindSpeed) => ReadingValue(data, "windspeedmph")
                   case (Outdoor, Pressure) => ReadingValue(data, "baromrelin")
                   case (Indoor, Temperature) => ReadingValue(data, "tempinf")
                   case (Indoor, Humidity) => ReadingValue(data, "humidityin")
                   case (Indoor, _) => None
    {
      match FieldFor(mode, attr)
      case None => None
      case Some(field) => ReadingValue(data, field)
    }

    function AttributionText(): string
      reads this
    {
      Attribution
    }

    function Name(): string
      reads this
    {
      name
    }

    function TemperatureUnit(): string
      reads this
    {
      TempFahrenheit
    }

    function Condition(): Option<string>
      reads this
    {
      None
    }

    /** Indoor temperature is `tempinf`, outdoor temperature `tempf`. */
    function Temperature(): (r: Option<Value>)
      reads this
      ensures r == ReadingValue(data, if mode == Indoor then "tempinf" else "tempf")
    {
      Get(Attr.Temperature)
    }

    /** Indoor humidity is `humidityin`, outdoor humidity `humidity`. */
    function Humidity(): (r: Option<Value>)
      reads this
      ensures r == ReadingValue(data, if mode == Indoor then "humidityin" else "humidity")
    {
      Get(Attr.Humidity)
    }

    /** Outdoor wind speed is `windspeedmph`; an indoor entity has none. */
    function WindSpeed(): (r: Option<Value>)
      reads this
      ensures mode == Indoor ==> r.None?
      ensures mode == Outdoor ==> r == ReadingValue(data, "windspeedmph")
    {
      Get(Attr.WindSpeed)
    }

    /** Outdoor wind bearing is `winddir`; an indoor entity has none. */
    function WindBearing(): (r: Option<Value>)
      reads this
      ensures mode == Indoor ==> r.None?
      ensures mode == Outdoor ==> r == ReadingValue(data, "winddir")
    {
      Get(Attr.WindBearing)
    }

    /** Outdoor pressure is `baromrelin`; an indoor entity has none. */
    function Pressure(): (r: Option<Value>)
      reads this
      ensures mode == Indoor ==> r.None?
      ensures mode == Outdoor ==> r == ReadingValue(data, "baromrelin")
    {
      Get(Attr.Pressure)
    }

    /** Replaces the cached reading with the first fetched one; an empty
        fetch leaves it as it was. Station, mode and name never change. */
    method Update(fetched: seq<Reading>)
      modifies this
      ensures data == if |fetched| != 0 then fetched[0] else old(data)
      ensures dev == old(dev) && mode == old(mode) && name == old(name)
      ensures Name() == old(Name())
    {
      if |fetched| != 0 {
        data := fetched[0];
      }
    }
  }

  /** Whatever its state, an entity credits Ambient Weather, reports
      Fahrenheit and has no condition. */
  lemma FixedAccessors(e: AmbientWeatherDevice)
    ensures e.AttributionText() == "Ambient Weather"
    ensures e.TemperatureUnit() == "°F"
    ensures e.Condition() == None
  {
  }

  /** Builds one entity per station plan entry, in order, and reports
      whether the list is handed to the host (only when non-empty). */
  method SetupPlatform(devices: seq<Device>) returns (entities: seq<AmbientWeatherDevice>, handedOver: bool)
    ensures |entities| == |Plan(devices)|
    ensures forall i :: 0 <= i < |entities| ==> fresh(entities[i]) && entities[i].Describes(Plan(devices)[i])
    ensures forall i, j :: 0 <= i < j < |entities| ==> entities[i] != entities[j]
    ensures handedOver <==> devices != []
  {
    entities := [];
    for i := 0 to |devices|
      invariant |entities| == |Plan(devices[..i])|
      invariant forall j :: 0 <= j < |entities| ==> fresh(entities[j]) && entities[j].Describes(Plan(devices[..i])[j])
      invariant forall j, k :: 0 <= j < k < |entities| ==> entities[j] != entities[k]
    {
      var device := devices[i];
      assert devices[..i + 1][..i] == devices[..i];
      var outdoor := new AmbientWeatherDevice(device, mode := Outdoor);
      entities := entities + [outdoor];
      if ReadingValue(device.lastData, "tempinf").Some? {
        var indoor := new AmbientWeatherDevice(device, mode := Indoor);
        entities := entities + [indoor];
      }
    }
    assert devices[..|devices|] == devices;
    PlanLength(devices);
    handedOver := |entities| > 0;
  }
}
