/** The device chooser list: a title row and the paired devices (when the
    paired array is not null), then a title row and the nearby devices (when
    any were found), laid out as one flat list of positions. */
module DeviceChooserAdapter {
  import opened Wrappers
  import opened Devices
  import BluetoothCommunicator

  /** The paired devices (a null array is `None`) and the nearby devices. */
  datatype ChooserList = ChooserList(paired: Option<seq<PeerDevice>>, nearby: seq<PeerDevice>)

  /** What a position shows: one of the two titles, or a clickable device row
      tagged with its device. */
  datatype Row = PairedTitle | NearbyTitle | DeviceRow(device: PeerDevice)

  /** An out-of-range `get` on the nearby list. */
  datatype Fault = IndexOutOfBounds(index: int)

  /** The paired section is absent or shows at least one device; the only
      paired arrays the communicator hands out satisfy this. */
  predicate PairedShownOrNull(l: ChooserList)
  {
    l.paired.None? || |l.paired.value| > 0
  }

  /** A device row for each device, in order. */
  function DeviceRows(devices: seq<PeerDevice>): (rows: seq<Row>)
    ensures |rows| == |devices|
    ensures forall i :: 0 <= i < |rows| ==> rows[i] == DeviceRow(devices[i])
  {
    seq(|devices|, i requires 0 <= i < |devices| => DeviceRow(devices[i]))
  }

  /** The list as it is meant to look: each non-null or non-empty section as
      its title followed by its devices. */
  function Layout(l: ChooserList): seq<Row>
  {
    (if l.paired.Some? then [PairedTitle] + DeviceRows(l.paired.value) else [])
    + (if l.nearby != [] then [NearbyTitle] + DeviceRows(l.nearby) else [])
  }

  /** `getItemCount`: a title plus the devices for a non-null paired array,
      and a title plus the devices for a non-empty nearby list. */
  function ItemCount(l: ChooserList): (n: nat)
    ensures n == 0 <==> l.paired.None? && l.nearby == []
    ensures n == |Layout(l)|
  {
    (if l.paired.Some? then |l.paired.value| + 1 else 0)
    + (if l.nearby != [] then |l.nearby| + 1 else 0)
  }

  /** `devicesNearby.get(i)` as a row. */
  function NearbyRow(l: ChooserList, i: int): (r: Result<Row, Fault>)
    ensures 0 <= i < |l.nearby| <==> r.Success?
    ensures r.Success? ==> r.value == DeviceRow(l.nearby[i])
    ensures r.Failure? ==> r.error == IndexOutOfBounds(i)
  {
    if 0 <= i < |l.nearby| then Success(DeviceRow(l.nearby[i])) else Failure(IndexOutOfBounds(i))
  }

  /** `onBindViewHolder`: the row shown at `position`, a position the list
      view takes from `0 .. getItemCount()`. */
  function BindRow(l: ChooserList, position: int): (r: Result<Row, Fault>)
    requires 0 <= position < ItemCount(l)
    ensures r.Failure? <==> l.paired == Some([]) && l.nearby != [] && position == |l.nearby| + 1
  {
    if l.paired.Some? && |l.paired.value| > 0 then
      var paired := l.paired.value;
      if position == 0 then Success(PairedTitle)
      else if position == |paired| + 1 then Success(NearbyTitle)
      else if position <= |paired| then Success(DeviceRow(paired[position - 1]))
      else NearbyRow(l, position - |paired| - 2)
    else if position == 0 then Success(NearbyTitle)
    else NearbyRow(l, position - 1)
  }

  /** With a null or non-empty paired array, every position binds, and binds
      to the row the layout puts there: the index arithmetic stays in range. */
  lemma BindRowFollowsLayout(l: ChooserList, position: int)
    requires PairedShownOrNull(l)
    requires 0 <= position < ItemCount(l)
    ensures BindRow(l, position) == Success(Layout(l)[position])
  {
    var nearbyPart := if l.nearby != [] then [NearbyTitle] + DeviceRows(l.nearby) else [];
    if l.paired.Some? {
      var p := |l.paired.value|;
      var pairedPart := [PairedTitle] + DeviceRows(l.paired.value);
      assert Layout(l) == pairedPart + nearbyPart;
      if position <= p {
        assert Layout(l)[position] == pairedPart[position];
      } else {
        assert Layout(l)[position] == nearbyPart[position - p - 1];
      }
    } else {
      assert Layout(l) == nearbyPart;
    }
  }

  /** An empty paired array that is not null is counted as a title row that
      is never drawn, so the last position reads past the nearby list. */
  lemma EmptyPairedArrayOverruns(d: PeerDevice)
    ensures ItemCount(ChooserList(Some([]), [d])) == 3
    ensures BindRow(ChooserList(Some([]), [d]), 2) == Failure(IndexOutOfBounds(1))
  {
  }

  /** `setPairedDevices`: replaces the paired array. */
  function SetPairedDevices(l: ChooserList, paired: Option<seq<PeerDevice>>): (r: ChooserList)
    ensures r.paired == paired && r.nearby == l.nearby
  {
    l.(paired := paired)
  }

  /** `getDevicesNearby`. */
  function GetDevicesNearby(l: ChooserList): seq<PeerDevice>
  {
    l.nearby
  }

  /** `setDevicesNearby`: replaces the nearby list. */
  function SetDevicesNearby(l: ChooserList, nearby: seq<PeerDevice>): (r: ChooserList)
    ensures GetDevicesNearby(r) == nearby && r.paired == l.paired
  {
    l.(nearby := nearby)
  }

  /** `addDeviceNearby`: appends, duplicates included; earlier entries stay. */
  function AddDeviceNearby(l: ChooserList, device: PeerDevice): (r: ChooserList)
    ensures r.paired == l.paired
    ensures |r.nearby| == |l.nearby| + 1
    ensures r.nearby[..|l.nearby|] == l.nearby && r.nearby[|l.nearby|] == device
  {
    l.(nearby := l.nearby + [device])
  }

  /** `clearDevicesNearbyList`: empties the nearby list; the paired array stays. */
  function ClearDevicesNearbyList(l: ChooserList): (r: ChooserList)
    ensures r.nearby == [] && r.paired == l.paired
  {
    l.(nearby := [])
  }

  /** A device added while the list is well formed shows up as the last row,
      one row further down (two when it opens the nearby section), and every
      row above the nearby section is unchanged. */
  lemma AddedDeviceIsLastRow(l: ChooserList, device: PeerDevice)
    requires PairedShownOrNull(l)
    ensures var r := AddDeviceNearby(l, device);
      && ItemCount(r) == ItemCount(l) + (if l.nearby == [] then 2 else 1)
      && BindRow(r, ItemCount(r) - 1) == Success(DeviceRow(device))
      && forall k :: 0 <= k < ItemCount(l) ==> BindRow(r, k) == BindRow(l, k)
  {
    var r := AddDeviceNearby(l, device);
    BindRowFollowsLayout(r, ItemCount(r) - 1);
    var nearbyRows := [NearbyTitle] + DeviceRows(r.nearby);
    assert Layout(r)[ItemCount(r) - 1] == nearbyRows[|nearbyRows| - 1];
    forall k | 0 <= k < ItemCount(l)
      ensures BindRow(r, k) == BindRow(l, k)
    {
      BindRowFollowsLayout(l, k);
      BindRowFollowsLayout(r, k);
      var before := if l.nearby != [] then [NearbyTitle] + DeviceRows(l.nearby) else [];
      var pairedPart := if l.paired.Some? then [PairedTitle] + DeviceRows(l.paired.value) else [];
      assert Layout(l) == pairedPart + before;
      assert Layout(r) == pairedPart + nearbyRows;
    }
  }

  /** After clearing, only the paired section is left. */
  lemma ClearedListShowsPairedOnly(l: ChooserList)
    ensures var r := ClearDevicesNearbyList(l);
      && Layout(r) == (if l.paired.Some? then [PairedTitle] + DeviceRows(l.paired.value) else [])
      && ItemCount(r) == (if l.paired.Some? then |l.paired.value| + 1 else 0)
  {
  }

  /** The paired devices the communicator hands out, whatever its state,
      always make a list whose every position binds. */
  lemma CommunicatorPairedDevicesBind(s: BluetoothCommunicator.State, l: ChooserList, position: int)
    requires BluetoothCommunicator.Valid(s)
    requires 0 <= position < ItemCount(SetPairedDevices(l, BluetoothCommunicator.GetPairedDevices(s).1))
    ensures BindRow(SetPairedDevices(l, BluetoothCommunicator.GetPairedDevices(s).1), position).Success?
  {
    var r := SetPairedDevices(l, BluetoothCommunicator.GetPairedDevices(s).1);
    BindRowFollowsLayout(r, position);
  }
}
