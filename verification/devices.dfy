/** Values that stand for Android Bluetooth platform objects. */
module Devices {

  /** A remote device as the platform reports it (android.bluetooth.BluetoothDevice):
      a hardware address and a display name. Immutable. */
  datatype PeerDevice = PeerDevice(address: string, name: string)

  /** The bytes handed to a stream write. */
  type Byte = bv8
}
