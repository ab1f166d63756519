/**
 * Everything a run depends on that lies outside the program: what the Bluetooth scan finds,
 * how the device answers the read and the write connections, and how the exchange service
 * answers each endpoint. One value fixes the outcome of every external call of one run.
 */
module World {
  import Locator
  import Gatt
  import Exchange
  import Writer

  datatype Outcomes = Outcomes(
    scan: Locator.ScanResult,
    readLink: Gatt.ReadLink,
    restoreReply: Exchange.HttpReply,  // the reply of apigetdata
    initReply: Exchange.HttpReply,     // the reply of apiinitdata
    writeLink: Writer.WriteLink)
}
