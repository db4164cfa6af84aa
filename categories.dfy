/**
  CATEGORY_TO_TABLE of ScrapDB/match_products.py: the store listing's
  "type" decides which specification tables are searched, and in which order.
*/
module Categories {
  import opened Wrappers

  /** A value of the map: one table name, or an ordered list of table names. */
  datatype Target = Table(name: string) | Tables(names: seq<string>)

  /** CATEGORY_TO_TABLE.get(category). Every value is truthy and names at
      least one table, each with a non-empty name, so `if not target_tables`
      skips exactly the unknown categories and a found table is never falsy. */
  function CategoryToTable(category: string): (r: Option<Target>)
    ensures r.Some? ==> UsableTarget(r.value) && TargetTruthy(r.value)
  {
    match category
    case "CPUCooler_Air" => Some(Table("CpuCoolerSpecifications"))
    case "CPUCooler_Liquid" => Some(Table("CpuCoolerSpecifications"))
    case "NetworkAdapter" => Some(Tables(["WiredNetworkAdapterSpecifications", "WirelessNetworkAdapterSpecifications"]))
    case "Case" => Some(Table("CaseSpecifications"))
    case "CaseFan" => Some(Table("CaseFanSpecifications"))
    case "CPU" => Some(Table("CPUSpecifications"))
    case "CPUCooler" => Some(Table("CpuCoolerSpecifications"))
    case "ExternalStorage" => Some(Table("ExternalStorageSpecifications"))
    case "FanController" => Some(Table("FanControllerSpecifications"))
    case "Headphones" => Some(Table("HeadphoneSpecifications"))
    case "Keyboard" => Some(Table("KeyboardSpecifications"))
    case "Memory" => Some(Table("RamSpecifications"))
    case "Monitor" => Some(Table("MonitorSpecifications"))
    case "Motherboard" => Some(Table("MotherboardSpecifications"))
    case "Mouse" => Some(Table("MouseSpecifications"))
    case "OperatingSystem" => Some(Table("OperatingSystemSpecifications"))
    case "OpticalDrive" => Some(Table("OpticalDriveSpecifications"))
    case "PowerSupply" => Some(Table("PowerSupplySpecifications"))
    case "SoundCard" => Some(Table("SoundCardSpecifications"))
    case "Speakers" => Some(Table("SpeakersSpecifications"))
    case "Storage" => Some(Table("InternalStorageSpecifications"))
    case "ThermalCompound" => Some(Table("ThermalPasteSpecifications"))
    case "UPS" => Some(Table("UpsSpecifications"))
    case "VideoCard" => Some(Table("GpuSpecifications"))
    case "Webcam" => Some(Table("WebcamSpecifications"))
    case "WiredNetworkAdapter" => Some(Table("WiredNetworkAdapterSpecifications"))
    case "WirelessNetworkAdapter" => Some(Table("WirelessNetworkAdapterSpecifications"))
    case "CPU_CPUCooler_ThermalCompound" => Some(Tables(["CPUSpecifications", "CpuCoolerSpecifications", "ThermalPasteSpecifications"]))
    case "Mouse_Keyboard" => Some(Tables(["MouseSpecifications", "KeyboardSpecifications"]))
    case "Storage_ExternalStorage" => Some(Tables(["InternalStorageSpecifications", "ExternalStorageSpecifications"]))
    case _ => None
  }

  /** The tables a target stands for: a single name is a one-element list. */
  function TargetTables(t: Target): seq<string>
  {
    match t
    case Table(name) => [name]
    case Tables(names) => names
  }

  /** Python truthiness of a map value: a non-empty name or a non-empty list. */
  predicate TargetTruthy(t: Target)
  {
    match t
    case Table(name) => name != ""
    case Tables(names) => names != []
  }

  /** Every table in the target has a non-empty name and there is at least one. */
  predicate UsableTarget(t: Target)
  {
    TargetTables(t) != [] && forall i :: 0 <= i < |TargetTables(t)| ==> TargetTables(t)[i] != ""
  }

  /** The combined categories search their tables in the listed order. */
  lemma CombinedCategories()
    ensures CategoryToTable("NetworkAdapter") ==
      Some(Tables(["WiredNetworkAdapterSpecifications", "WirelessNetworkAdapterSpecifications"]))
    ensures CategoryToTable("CPU_CPUCooler_ThermalCompound") ==
      Some(Tables(["CPUSpecifications", "CpuCoolerSpecifications", "ThermalPasteSpecifications"]))
    ensures CategoryToTable("Mouse_Keyboard") ==
      Some(Tables(["MouseSpecifications", "KeyboardSpecifications"]))
    ensures CategoryToTable("Storage_ExternalStorage") ==
      Some(Tables(["InternalStorageSpecifications", "ExternalStorageSpecifications"]))
    ensures CategoryToTable("CPUCooler_Air") == Some(Table("CpuCoolerSpecifications"))
    ensures CategoryToTable("Laptop") == None
  {
  }
}
