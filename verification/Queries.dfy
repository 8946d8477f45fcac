/** The D-Bus queries: which property of which interface fills which member, and how values are formatted. */
module Queries {
  import opened FieldValues
  import opened Options
  import opened Statuses

  /** Interface to property to member. */
  type Dictionary = map<string, map<string, string>>

  datatype Query = Query(dictionary: Dictionary, formatters: map<string, seq<Formatter>>, defaults: Members) {
    function PropertyMembers(interface: string): map<string, string> {
      if interface in dictionary then dictionary[interface] else map[]
    }

    /** `processFormatters`. A formatter refuses a list as it refuses every value of the wrong type. */
    function Formatted(property: string, value: Variant): Option<Variant> {
      if property !in formatters || formatters[property] == [] then Some(value)
      else if !value.Scalar? then None
      else match Format(formatters[property], 0, value.value)
        case None => None
        case Some(v) => Some(Scalar(v))
    }
  }

  /** No two properties fill the same member. */
  ghost predicate Injective(d: Dictionary) {
    forall i, j, p, q :: i in d && p in d[i] && j in d && q in d[j] && d[i][p] == d[j][q] ==> i == j && p == q
  }

  lemma InjectiveByInverse(d: Dictionary, inverse: map<string, (string, string)>)
    requires forall i, p | i in d && p in d[i] :: d[i][p] in inverse && inverse[d[i][p]] == (i, p)
    ensures Injective(d)
  {
  }

  // The shipped queries

  const ASSET_INTERFACE := "xyz.openbmc_project.Inventory.Decorator.Asset"
  const CHASSIS_INTERFACE := "xyz.openbmc_project.Inventory.Item.Chassis"
  const BOARD_INTERFACE := "xyz.openbmc_project.Inventory.Item.Board"
  const PLATFORM_INTERFACE := "com.yadro.Platform"
  const SENSOR_VALUE_INTERFACE := "xyz.openbmc_project.Sensor.Value"
  const SENSOR_WARNING_INTERFACE := "xyz.openbmc_project.Sensor.Threshold.Warning"
  const SENSOR_CRITICAL_INTERFACE := "xyz.openbmc_project.Sensor.Threshold.Critical"
  const DEFINITION_INTERFACE := "xyz.openbmc_project.Association.Definitions"
  const VERSION_INTERFACE := "xyz.openbmc_project.Software.Version"

  const FIELD_STATUS := "Status"
  const FIELD_CAUSER := "Causer"
  const FIELD_ASSOCIATIONS := "Associations"
  const FIELD_VERSION := "Version"
  const FIELD_PURPOSE := "Purpose"
  const FIELD_VERSION_BMC := "BmcVersion"
  const FIELD_VERSION_BIOS := "BiosVersion"

  const ASSET_MEMBERS := map["Manufacturer" := "Manufacturer", "Model" := "Model",
                             "SerialNumber" := "SerialNumber", "PartNumber" := "PartNumber"]

  const STATUS_OK_BY_DEFAULT: Members := map[FIELD_STATUS := StrValue(STATUS_OK)]

  function ServerQuery(): Query {
    Query(map[CHASSIS_INTERFACE := map["Name" := "Name", "Type" := "Type"], ASSET_INTERFACE := ASSET_MEMBERS],
          map[], map[])
  }

  function BaseboardQuery(): Query {
    Query(map[BOARD_INTERFACE := map["Name" := "Name", "Type" := "Type"], ASSET_INTERFACE := ASSET_MEMBERS],
          map[], map[])
  }

  function FormatChassisType(value: FieldValue): Option<FieldValue> {
    if !value.StrValue? then None
    else Some(StrValue(if value.text == "23" then "Rack Mount" else "Other"))
  }

  function ChassisQuery(): Query {
    Query(map[PLATFORM_INTERFACE := map["ChassisType" := "Type", "ChassisPartNumber" := "PartNumber"],
              ASSET_INTERFACE := map["Manufacturer" := "Manufacturer"]],
          map["ChassisType" := [FormatChassisType]], map[])
  }

  const SENSOR_UNITS := map[
    "xyz.openbmc_project.Sensor.Value.Unit.DegreesC" := "\U{00B0}C",
    "xyz.openbmc_project.Sensor.Value.Unit.Volts" := "Volts",
    "xyz.openbmc_project.Sensor.Value.Unit.RPMS" := "RPM",
    "xyz.openbmc_project.Sensor.Value.Unit.Meters" := "Meters",
    "xyz.openbmc_project.Sensor.Value.Unit.Amperes" := "Amperes",
    "xyz.openbmc_project.Sensor.Value.Unit.Watts" := "Watts",
    "xyz.openbmc_project.Sensor.Value.Unit.Joules" := "Joules",
    "xyz.openbmc_project.Sensor.Value.Unit.Percent" := "%"]

  function FormatSensorUnit(value: FieldValue): Option<FieldValue> {
    if !value.StrValue? then None
    else Some(StrValue(if value.text in SENSOR_UNITS then SENSOR_UNITS[value.text] else "Unit"))
  }

  function SensorsQuery(): Query {
    Query(map[SENSOR_VALUE_INTERFACE := map["Value" := "Reading", "Unit" := "Unit"],
              SENSOR_WARNING_INTERFACE := map["WarningLow" := "LowWarning", "WarningHigh" := "HighWarning"],
              SENSOR_CRITICAL_INTERFACE := map["CriticalHigh" := "HighCritical", "CriticalLow" := "LowCritical"]],
          map["Unit" := [FormatSensorUnit]], STATUS_OK_BY_DEFAULT)
  }

  function StatusQuery(): Query {
    Query(map[DEFINITION_INTERFACE := map["Associations" := FIELD_ASSOCIATIONS],
              FIELD_ASSOCIATIONS := map["Source" := FIELD_STATUS, "Endpoint" := FIELD_CAUSER]],
          map[], STATUS_OK_BY_DEFAULT)
  }

  function VersionQuery(): Query {
    Query(map[VERSION_INTERFACE := map["Version" := FIELD_VERSION, "Purpose" := FIELD_PURPOSE]], map[], map[])
  }

  lemma ServerIsInjective()
    ensures Injective(ServerQuery().dictionary)
  {
    InjectiveByInverse(ServerQuery().dictionary,
      map["Name" := (CHASSIS_INTERFACE, "Name"), "Type" := (CHASSIS_INTERFACE, "Type"),
          "Manufacturer" := (ASSET_INTERFACE, "Manufacturer"), "Model" := (ASSET_INTERFACE, "Model"),
          "SerialNumber" := (ASSET_INTERFACE, "SerialNumber"), "PartNumber" := (ASSET_INTERFACE, "PartNumber")]);
  }

  lemma BaseboardIsInjective()
    ensures Injective(BaseboardQuery().dictionary)
  {
    InjectiveByInverse(BaseboardQuery().dictionary,
      map["Name" := (BOARD_INTERFACE, "Name"), "Type" := (BOARD_INTERFACE, "Type"),
          "Manufacturer" := (ASSET_INTERFACE, "Manufacturer"), "Model" := (ASSET_INTERFACE, "Model"),
          "SerialNumber" := (ASSET_INTERFACE, "SerialNumber"), "PartNumber" := (ASSET_INTERFACE, "PartNumber")]);
  }

  lemma ChassisIsInjective()
    ensures Injective(ChassisQuery().dictionary)
  {
    InjectiveByInverse(ChassisQuery().dictionary,
      map["Type" := (PLATFORM_INTERFACE, "ChassisType"), "PartNumber" := (PLATFORM_INTERFACE, "ChassisPartNumber"),
          "Manufacturer" := (ASSET_INTERFACE, "Manufacturer")]);
  }

  const SENSOR_SOURCES := map[
    "Reading" := (SENSOR_VALUE_INTERFACE, "Value"), "Unit" := (SENSOR_VALUE_INTERFACE, "Unit"),
    "LowWarning" := (SENSOR_WARNING_INTERFACE, "WarningLow"),
    "HighWarning" := (SENSOR_WARNING_INTERFACE, "WarningHigh"),
    "HighCritical" := (SENSOR_CRITICAL_INTERFACE, "CriticalHigh"),
    "LowCritical" := (SENSOR_CRITICAL_INTERFACE, "CriticalLow")]

  /** Every member of one interface is mapped back to its property. */
  ghost predicate Inverts(inverse: map<string, (string, string)>, interface: string, members: map<string, string>) {
    forall p | p in members :: members[p] in inverse && inverse[members[p]] == (interface, p)
  }

  lemma InvertsPair(inverse: map<string, (string, string)>, interface: string, p: string, m: string, q: string,
                    n: string)
    requires m in inverse && inverse[m] == (interface, p) && n in inverse && inverse[n] == (interface, q)
    ensures Inverts(inverse, interface, map[p := m, q := n])
  {
  }

  lemma SensorsIsInjective()
    ensures Injective(SensorsQuery().dictionary)
  {
    InvertsPair(SENSOR_SOURCES, SENSOR_VALUE_INTERFACE, "Value", "Reading", "Unit", "Unit");
    InvertsPair(SENSOR_SOURCES, SENSOR_WARNING_INTERFACE, "WarningLow", "LowWarning", "WarningHigh", "HighWarning");
    InvertsPair(SENSOR_SOURCES, SENSOR_CRITICAL_INTERFACE, "CriticalHigh", "HighCritical", "CriticalLow",
                "LowCritical");
    var d := SensorsQuery().dictionary;
    forall i, p | i in d && p in d[i]
      ensures d[i][p] in SENSOR_SOURCES && SENSOR_SOURCES[d[i][p]] == (i, p)
    {
      assert Inverts(SENSOR_SOURCES, i, d[i]);
    }
    InjectiveByInverse(d, SENSOR_SOURCES);
  }

  lemma StatusIsInjective()
    ensures Injective(StatusQuery().dictionary)
  {
    InjectiveByInverse(StatusQuery().dictionary,
      map[FIELD_ASSOCIATIONS := (DEFINITION_INTERFACE, "Associations"), FIELD_STATUS := (FIELD_ASSOCIATIONS, "Source"),
          FIELD_CAUSER := (FIELD_ASSOCIATIONS, "Endpoint")]);
  }

  lemma VersionIsInjective()
    ensures Injective(VersionQuery().dictionary)
  {
    InjectiveByInverse(VersionQuery().dictionary,
      map[FIELD_VERSION := (VERSION_INTERFACE, "Version"), FIELD_PURPOSE := (VERSION_INTERFACE, "Purpose")]);
  }
}
