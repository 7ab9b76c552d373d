/** Paired devices, kept in the `auth` namespace of the vault under `device:<public key>`. */
module Devices {
  import opened Wrappers
  import opened Session
  import opened Order
  import Text

  datatype PairedDevice = PairedDevice(pubkeyHex: string, deviceLabel: string, pairedAt: int, lastSeenAt: int)

  /** An entry of the namespace: a device, or anything that does not parse as one. */
  datatype AuthValue = DeviceJson(device: PairedDevice) | Foreign

  type AuthEntries = map<string, AuthValue>

  const DEVICE_KEY_PREFIX := "device:"

  function DeviceKey(pubkeyHex: string): string { DEVICE_KEY_PREFIX + pubkeyHex }

  lemma DeviceKeyInjective(a: string, b: string)
    ensures DeviceKey(a) == DeviceKey(b) ==> a == b
  {
    assert a == DeviceKey(a)[|DEVICE_KEY_PREFIX|..] && b == DeviceKey(b)[|DEVICE_KEY_PREFIX|..];
  }

  /** Which of the vault accesses a call makes are going to work. */
  datatype Reach = Reach(get: bool, put: bool, delete: bool, touchGet: bool, touchPut: bool)

  // ── As functions of the namespace ────────────────────────────────────

  function GetDevice(entries: AuthEntries, pubkeyHex: string, get: bool): Result<Option<PairedDevice>, AuthError>
  {
    if !get then Err(Vault)
    else if DeviceKey(pubkeyHex) !in entries then Ok(None)
    else
      match entries[DeviceKey(pubkeyHex)]
      case DeviceJson(d) => Ok(Some(d))
      case Foreign => Err(Serde)
  }

  function AddDevice(entries: AuthEntries, pubkeyHex: string, deviceLabel: string, now: int, r: Reach)
    : (AuthEntries, Result<PairedDevice, AuthError>)
  {
    if !r.get then (entries, Err(Vault))
    else if DeviceKey(pubkeyHex) in entries then (entries, Err(DeviceAlreadyPaired))
    else
      var d := PairedDevice(pubkeyHex, deviceLabel, now, now);
      if r.put then (entries[DeviceKey(pubkeyHex) := DeviceJson(d)], Ok(d)) else (entries, Err(Vault))
  }

  function TouchLastSeen(entries: AuthEntries, pubkeyHex: string, now: int, r: Reach): AuthEntries
  {
    match GetDevice(entries, pubkeyHex, r.touchGet)
    case Ok(Some(d)) =>
      if r.touchPut then entries[DeviceKey(pubkeyHex) := DeviceJson(d.(lastSeenAt := now))] else entries
    case _ => entries
  }

  // ── In place ─────────────────────────────────────────────────────────

  /** A device is filed under its own public key. */
  predicate WellKeyed(entries: AuthEntries)
  {
    forall k | k in entries && entries[k].DeviceJson? :: k == DeviceKey(entries[k].device.pubkeyHex)
  }

  /** The key is not a device's, or it can be read and holds a device. */
  predicate Legible(entries: AuthEntries, k: string, readable: string -> bool)
    requires k in entries
  {
    DEVICE_KEY_PREFIX <= k ==> readable(k[|DEVICE_KEY_PREFIX|..]) && entries[k].DeviceJson?
  }

  predicate Recorded(entries: AuthEntries, d: PairedDevice)
  {
    DeviceKey(d.pubkeyHex) in entries && entries[DeviceKey(d.pubkeyHex)] == DeviceJson(d)
  }

  predicate Before(a: PairedDevice, b: PairedDevice)
  {
    a.pairedAt < b.pairedAt || (a.pairedAt == b.pairedAt && Less(a.pubkeyHex, b.pubkeyHex))
  }

  /** Strictly increasing by pairing time, then public key; in particular no device twice. */
  predicate Ordered(devices: seq<PairedDevice>)
  {
    forall i, j | 0 <= i < j < |devices| :: Before(devices[i], devices[j])
  }

  /** The stable sort by `paired_at`, one element at a time: after its equals. */
  function InsertByPairing(devices: seq<PairedDevice>, d: PairedDevice): (r: seq<PairedDevice>)
    requires Ordered(devices) && forall e | e in devices :: Less(e.pubkeyHex, d.pubkeyHex)
    ensures Ordered(r)
    ensures forall e :: e in r <==> e in devices || e == d
  {
    if devices == [] then [d]
    else
      var last := devices[|devices| - 1];
      assert forall e | e in devices :: e == last || Before(e, last);
      if last.pairedAt <= d.pairedAt then devices + [d]
      else
        var front := devices[..|devices| - 1];
        assert devices == front + [last];
        InsertByPairing(front, d) + [last]
  }

  lemma {:induction false} CommonPrefix(p: string, a: string, b: string)
    ensures Less(p + a, p + b) == Less(a, b)
  {
    if p == [] {
      assert p + a == a && p + b == b;
    } else {
      assert (p + a)[1..] == p[1..] + a && (p + b)[1..] == p[1..] + b;
      CommonPrefix(p[1..], a, b);
    }
  }

  lemma PrefixKeepsOrder(a: string, b: string)
    requires Less(DeviceKey(a), DeviceKey(b))
    ensures Less(a, b)
  {
    CommonPrefix(DEVICE_KEY_PREFIX, a, b);
  }

  class DeviceStore {
    var entries: AuthEntries

    constructor (entries: AuthEntries)
      ensures this.entries == entries
    {
      this.entries := entries;
    }

    method Add(pubkeyHex: string, deviceLabel: string, now: int, r: Reach)
      returns (out: Result<PairedDevice, AuthError>)
      modifies this
      ensures (entries, out) == AddDevice(old(entries), pubkeyHex, deviceLabel, now, r)
    {
      if !r.get {
        return Err(Vault);
      }
      var key := DeviceKey(pubkeyHex);
      if key in entries {
        return Err(DeviceAlreadyPaired);
      }
      var device := PairedDevice(pubkeyHex, deviceLabel, now, now);
      if !r.put {
        return Err(Vault);
      }
      entries := entries[key := DeviceJson(device)];
      return Ok(device);
    }

    method Touch(pubkeyHex: string, now: int, r: Reach)
      modifies this
      ensures entries == TouchLastSeen(old(entries), pubkeyHex, now, r)
    {
      var got := GetDevice(entries, pubkeyHex, r.touchGet);
      if got.Err? || got.value.None? {
        return;
      }
      var device := got.value.value;
      device := device.(lastSeenAt := now);
      if r.touchPut {
        entries := entries[DeviceKey(pubkeyHex) := DeviceJson(device)];
      }
    }

    method Remove(pubkeyHex: string, delete: bool) returns (out: Result<(), AuthError>)
      modifies this
      ensures entries == if delete then old(entries) - {DeviceKey(pubkeyHex)} else old(entries)
      ensures out == if delete then Ok(()) else Err(Vault)
    {
      if !delete {
        return Err(Vault);
      }
      entries := entries - {DeviceKey(pubkeyHex)};
      return Ok(());
    }

    /** Whatever fails, an answer holds every device on record exactly once, oldest
        pairing first and devices paired in the same second by public key; and there
        is an answer exactly when the listing works and every device key can be read. */
    method List(canList: bool, readable: string -> bool) returns (out: Result<seq<PairedDevice>, AuthError>)
      requires WellKeyed(entries)
      ensures out.Ok? <==> canList && forall k | k in entries :: Legible(entries, k, readable)
      ensures out.Ok? ==> Ordered(out.value) && (forall d :: d in out.value <==> Recorded(entries, d))
    {
      if !canList {
        return Err(Vault);
      }
      var keys := SortKeys(entries.Keys);
      assert forall k :: k in keys <==> k in Elements(keys);
      var devices: seq<PairedDevice> := [];
      for i := 0 to |keys|
        invariant Ordered(devices)
        invariant forall k | k in keys[..i] :: Legible(entries, k, readable)
        invariant forall d :: d in devices <==> Recorded(entries, d) && DeviceKey(d.pubkeyHex) in keys[..i]
      {
        assert keys[..i + 1] == keys[..i] + [keys[i]];
        var pubkeyHex := Text.StripPrefix(keys[i], DEVICE_KEY_PREFIX);
        if pubkeyHex.Some? {
          var got := GetDevice(entries, pubkeyHex.value, readable(pubkeyHex.value));
          if got.Err? {
            assert !Legible(entries, keys[i], readable);
            return Err(got.error);
          }
          var device := got.value.value;
          forall d | d in devices ensures Less(d.pubkeyHex, device.pubkeyHex) {
            var j :| 0 <= j < i && keys[j] == DeviceKey(d.pubkeyHex);
            assert Less(keys[j], keys[i]);
            PrefixKeepsOrder(d.pubkeyHex, device.pubkeyHex);
          }
          devices := InsertByPairing(devices, device);
          forall d ensures d in devices <==> Recorded(entries, d) && DeviceKey(d.pubkeyHex) in keys[..i + 1] {
            if Recorded(entries, d) && DeviceKey(d.pubkeyHex) == keys[i] {
              DeviceKeyInjective(d.pubkeyHex, device.pubkeyHex);
            }
          }
        } else {
          forall d: PairedDevice ensures DeviceKey(d.pubkeyHex) != keys[i] {
            assert DEVICE_KEY_PREFIX <= DeviceKey(d.pubkeyHex);
          }
        }
      }
      assert keys[..|keys|] == keys;
      return Ok(devices);
    }
  }
}
