/** The WiFred device configuration, as the driver reads it and the device keeps it. */
module WifredConfig {
  import opened Prelude

  type U8 = x: int | 0 <= x < 0x100
  type U16 = x: int | 0 <= x < 0x1_0000
  type U32 = x: int | 0 <= x < 0x1_0000_0000
  type I64 = x: int | -0x8000_0000_0000_0000 <= x < 0x8000_0000_0000_0000

  const I64_HALF: nat := 0x8000_0000_0000_0000

  datatype FunctionEntry = FunctionEntry(index: U8, value: U8)

  datatype Loco = Loco(
    id: Option<U8>,
    address: I64,
    mode: Option<string>,
    direction: Option<U8>,
    longAddress: Option<bool>,
    functions: seq<FunctionEntry>)

  datatype Network = Network(ssid: string, key: Option<string>, enabled: bool)

  datatype Server = Server(name: string, port: U16, automatic: bool)

  datatype Config = Config(
    structureVersion: Option<string>,
    throttleName: Option<string>,
    firmwareRevision: Option<string>,
    batteryMv: Option<U32>,
    locos: seq<Loco>,
    networks: seq<Network>,
    server: Option<Server>)

  const EmptyConfig := Config(None, None, None, None, [], [], None)

  /** A slot that is not in use. */
  function UnusedLoco(id: Option<U8>): Loco
  {
    Loco(id, -1, None, None, None, [])
  }
}
