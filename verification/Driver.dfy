/** The driver-global device list and the process-exit callback that walks every
    handle of every device on it. */
module DriverList {
  import opened MemoryState
  import opened LifecycleOps
  import opened KernelState
  import opened MemoryDevice
  import MemoryDispatch

  class Driver {
    var deviceList: seq<Device>

    /** Everything a device's memory state lives in. */
    static ghost function Footprint(d: Device): set<object>
      reads d
    {
      {d, d.kernel, d.iatu.slots, d.iatu.regions, d.pool.used, d.pool.owner} + d.files.Values
    }

    /** OnDriverList: no device is listed twice. */
    predicate Valid()
      reads this
    {
      forall i, j | 0 <= i < j < |deviceList| :: deviceList[i] != deviceList[j]
    }

    constructor ()
      ensures Valid() && deviceList == []
    {
      deviceList := [];
    }

    /** TtDeviceListRegister, from TtEvtDeviceAdd for a new device. */
    method Register(d: Device)
      requires Valid() && d !in deviceList
      modifies this
      ensures Valid() && deviceList == old(deviceList) + [d]
    {
      deviceList := deviceList + [d];
    }

    /** TtDeviceListUnregister: removes the device if it is on the list. */
    method Unregister(d: Device)
      requires Valid()
      modifies this
      ensures Valid() && d !in deviceList
      ensures forall e :: e in deviceList <==> e in old(deviceList) && e != d
    {
      var i := 0;
      while i < |deviceList|
        invariant 0 <= i <= |deviceList| && deviceList == old(deviceList)
        invariant forall j | 0 <= j < i :: deviceList[j] != d
      {
        if deviceList[i] == d {
          deviceList := deviceList[..i] + deviceList[i + 1..];
          return;
        }
        i := i + 1;
      }
    }

    /** The listed devices are healthy and share nothing. */
    static ghost predicate Apart(ds: seq<Device>)
      reads ds, set d, o | d in ds && o in Footprint(d) :: o
    {
      && (forall d | d in ds :: d as object in Footprint(d) && d.iatu.slots as object in Footprint(d) &&
            d.pool.used as object in Footprint(d) && d.pool.owner as object in Footprint(d) && d.Valid())
      && (forall i, j | 0 <= i < j < |ds| :: Footprint(ds[i]) !! Footprint(ds[j]))
      && AllHealthy(ds)
    }

    static ghost predicate IsHealthy(d: Device)
      reads Footprint(d)
    {
      d.Healthy()
    }

    static ghost predicate AllHealthy(ds: seq<Device>)
      reads ds, set d, o | d in ds && o in Footprint(d) :: o
    {
      forall d {:trigger IsHealthy(d)} | d in ds :: IsHealthy(d)
    }

    /** Nothing about the device's memory state is different. */
    static twostate predicate Same(e: Device)
      reads e, e.kernel, e.iatu.slots, e.iatu.regions, e.pool.used, e.pool.owner, e.files.Values
    {
      && e.Valid() && old(e.Valid()) && e.View() == old(e.View()) && e.kernel.holdings == old(e.kernel.holdings)
      && Footprint(e) == old(Footprint(e))
    }

    /** A device is as it was when nothing in its footprint has changed. */
    static twostate lemma OutOfReach(e: Device)
      requires old(e.Valid()) && forall o: object | o in old(Footprint(e)) :: unchanged(o)
      ensures Same(e)
    {
      assert e as object in old(Footprint(e)) && e.iatu.slots as object in old(Footprint(e));
      assert e.kernel as object in old(Footprint(e)) && e.pool.used as object in old(Footprint(e));
      assert e.pool.owner as object in old(Footprint(e)) && e.iatu.regions as object in old(Footprint(e));
    }

    static twostate lemma StillHealthy(e: Device)
      requires Same(e) && old(IsHealthy(e))
      ensures IsHealthy(e)
    {
    }

    /** One device's part of the walk. */
    static method ExitDevice(d: Device, p: Process)
      requires IsHealthy(d)
      modifies Footprint(d)
      ensures IsHealthy(d) && d.View() == Exited(old(d.View()), p) && Footprint(d) == old(Footprint(d))
    {
      MemoryDispatch.ProcessExit(d, p);
    }

    /** The other devices are out of its reach. */
    static method ExitOn(d: Device, ghost others: set<Device>, p: Process)
      requires IsHealthy(d) && forall e | e in others :: e.Valid() && Footprint(e) !! Footprint(d)
      modifies Footprint(d)
      ensures IsHealthy(d) && d.View() == Exited(old(d.View()), p) && Footprint(d) == old(Footprint(d))
      ensures forall e | e in others :: Same(e)
    {
      ghost var mine := Footprint(d);
      ExitDevice(d, p);
      forall e | e in others
        ensures Same(e)
      {
        assert forall o: object | o in old(Footprint(e)) :: o !in mine && unchanged(o);
        OutOfReach(e);
      }
    }

    /** TtProcessNotify for an exit: every device takes its process-exit step, and
        none then holds anything for the process but its handles' buffers. */
    method ProcessNotify(p: Process)
      requires Valid() && Apart(deviceList) && forall d | d in deviceList :: this as object !in Footprint(d)
      modifies set d, o | d in deviceList && o in Footprint(d) :: o
      ensures Valid() && deviceList == old(deviceList) && Apart(deviceList)
      ensures forall d | d in deviceList :: ExitDone(d, old(d.View()), p)
    {
      Walk(deviceList, p);
      forall d | d in deviceList
        ensures ExitDone(d, old(d.View()), p)
      {
        assert IsHealthy(d);
        HoldsNothing(d, old(d.View()), p);
      }
    }

    static ghost predicate ExitDone(d: Device, before: State, p: Process)
      requires d.Valid()
      reads d, d.kernel, d.iatu.slots, d.iatu.regions, d.pool.used, d.pool.owner, d.files.Values
    {
      d.View() == Exited(before, p) && NothingHeldFor(d.kernel.holdings, d.View(), p)
    }

    static lemma HoldsNothing(d: Device, before: State, p: Process)
      requires IsHealthy(d) && d.View() == Exited(before, p)
      ensures ExitDone(d, before, p)
    {
      ExitHoldsNothing(d.kernel.holdings, before, p);
    }

    static method Walk(ds: seq<Device>, p: Process)
      requires Apart(ds)
      modifies set d, o | d in ds && o in Footprint(d) :: o
      ensures Apart(ds)
      ensures forall d | d in ds :: Footprint(d) == old(Footprint(d))
      ensures forall i | 0 <= i < |ds| :: ds[i].View() == Exited(old(ds[i].View()), p)
    {
      var i := 0;
      while i < |ds|
        invariant 0 <= i <= |ds|
        invariant Apart(ds) && forall d | d in ds :: Footprint(d) == old(Footprint(d))
        invariant forall j | 0 <= j < i :: ds[j].View() == Exited(old(ds[j].View()), p)
        invariant forall j | i <= j < |ds| :: ds[j].View() == old(ds[j].View())
      {
        ExitAt(ds, i, p);
        i := i + 1;
      }
    }

    static method ExitAt(ds: seq<Device>, i: nat, p: Process)
      requires Apart(ds) && i < |ds|
      modifies Footprint(ds[i])
      ensures Apart(ds) && forall d | d in ds :: Footprint(d) == old(Footprint(d))
      ensures ds[i].View() == Exited(old(ds[i].View()), p)
      ensures forall j | 0 <= j < |ds| && j != i :: ds[j].View() == old(ds[j].View())
    {
      ghost var others := set j | 0 <= j < |ds| && j != i :: ds[j];
      assert forall j | 0 <= j < |ds| && j != i :: ds[j] in others;
      Next(ds, others, ds[i], p);
    }

    static method Next(ghost ds: seq<Device>, ghost others: set<Device>, d: Device, p: Process)
      requires IsHealthy(d) && AllHealthy(ds) && forall e | e in others :: e.Valid() && Footprint(e) !! Footprint(d)
      requires forall e :: e in ds <==> e == d || e in others
      modifies Footprint(d)
      ensures IsHealthy(d) && d.View() == Exited(old(d.View()), p) && Footprint(d) == old(Footprint(d))
      ensures AllHealthy(ds) && forall e | e in others :: Same(e)
    {
      ExitOn(d, others, p);
      forall e | e in others
        ensures IsHealthy(e)
      {
        assert old(IsHealthy(e));
        StillHealthy(e);
      }
    }
  }
}
