/**
 Handing a network card to VFIO and back.  Every command may fail, before or after taking effect, and
 some may silently do nothing.
 */
module VfioOwnership {

  datatype Driver = NoDriver | Original | Vfio

  datatype Override = AsFound | ToVfio

  /** How one command goes: as asked, refused, done but reported as failed, or ignored without complaint. */
  datatype Fate = Works | Refused | DoneButFails | Ignored

  predicate Happens(f: Fate) { f == Works || f == DoneButFails }

  predicate Raises(f: Fate) { f == Refused || f == DoneButFails }

  /** The fates of a call's commands, in order; whatever is not listed works. */
  type Plan = seq<Fate>

  function At(p: Plan, i: nat): Fate {
    if i < |p| then p[i] else Works
  }

  /** Every command of the plan works. */
  predicate Smooth(p: Plan) {
    forall i :: 0 <= i < |p| ==> p[i] == Works
  }

  class DeviceOwnership {
    // The card and its network profile.
    var driver: Driver
    var driverOverride: Override
    var profileUp: bool
    const managed: bool
    // What the controller remembers, and what it has recorded.
    var driverTouched: bool
    var vfioAcquired: bool
    var profileDown: bool
    var reclaims: nat
    // History: VFIO was acquired once; the profile went down in a command that reported failure.
    ghost var acquired: bool
    ghost var lost: bool

    constructor (managed: bool)
      ensures Consistent() && this.managed == managed && Untouched()
      ensures !driverTouched && !vfioAcquired && !profileDown && !acquired && !lost && reclaims == 0
    {
      driver, driverOverride, profileUp, this.managed := Original, AsFound, true, managed;
      driverTouched, vfioAcquired, profileDown, reclaims := false, false, false, 0;
      acquired, lost := false, false;
    }

    predicate Untouched()
      reads this
    {
      driver == Original && driverOverride == AsFound && profileUp
    }

    /** What the controller remembers is enough to put things back, except for a lost profile. */
    ghost predicate Consistent()
      reads this
    {
      && (!driverTouched ==> driver == Original && driverOverride == AsFound && !vfioAcquired)
      && (if profileDown then !lost else profileUp == !lost)
      && (profileDown ==> managed)
      && (vfioAcquired ==> acquired)
      && reclaims == (if acquired && !vfioAcquired then 1 else 0)
    }

    /** driver/unbind is not there without a driver. */
    method Unbind(f: Fate) returns (ok: bool)
      modifies this`driver
      ensures driver == if old(driver) != NoDriver && Happens(f) then NoDriver else old(driver)
      ensures ok <==> old(driver) != NoDriver && !Raises(f)
    {
      if driver == NoDriver {
        return false;
      }
      if Happens(f) {
        driver := NoDriver;
      }
      ok := !Raises(f);
    }

    /** A driver takes a card that is free and that the override leaves to it. */
    method Bind(d: Driver, f: Fate) returns (ok: bool)
      modifies this`driver
      ensures driver == old(driver) || (driver == d && old(driver) == NoDriver)
      ensures ok ==> !Raises(f)
      ensures old(driver) == NoDriver && (d == Vfio <==> driverOverride == ToVfio) && f == Works ==> ok && driver == d
    {
      if driver != NoDriver || (d == Vfio) != (driverOverride == ToVfio) {
        return false;
      }
      if Happens(f) {
        driver := d;
      }
      ok := !Raises(f);
    }

    /** A write to driver_override that returns has taken effect. */
    method WriteOverride(v: Override, f: Fate) returns (ok: bool)
      modifies this`driverOverride
      ensures driverOverride == v || (driverOverride == old(driverOverride) && !ok)
      ensures ok <==> !Raises(f)
    {
      if f != Refused {
        driverOverride := v;
      }
      ok := !Raises(f);
    }

    method BindVfio(p: Plan, addressesLeft: bool, routesLeft: bool) returns (ok: bool)
      requires Consistent() && Untouched() && !driverTouched && !profileDown && !acquired && !lost
      modifies this
      ensures Consistent()
      ensures lost <==> managed && At(p, 0) == DoneButFails
      ensures lost ==> !driverTouched && !profileDown
      ensures acquired == vfioAcquired && (ok ==> driver == Vfio && acquired)
      ensures Smooth(p) && !addressesLeft && !routesLeft ==> ok
      ensures ok ==> forall i :: (if managed then 0 else 3) <= i < 7 ==> !Raises(At(p, i))
      ensures managed && (addressesLeft || routesLeft) ==>
                !ok && driver == old(driver) && driverOverride == old(driverOverride) && !driverTouched
    {
      if managed {
        if Happens(At(p, 0)) {
          profileUp := false;
        }
        if Raises(At(p, 0)) {
          lost := Happens(At(p, 0));
          return false;
        }
        profileDown := true;
        if Raises(At(p, 1)) || addressesLeft || Raises(At(p, 2)) || routesLeft {
          return false;
        }
      }
      driverTouched := true;
      ok := WriteOverride(ToVfio, At(p, 3));
      if !ok {
        return;
      }
      ok := Unbind(At(p, 4));
      if !ok {
        return;
      }
      ok := Bind(Vfio, At(p, 5));
      if !ok || driver != Vfio {
        return false;
      }
      vfioAcquired, acquired := true, true;
      ok := !Raises(At(p, 6));
    }

    /** A restore that returns has put everything back, and repeating it changes nothing. */
    method Restore(p: Plan) returns (ok: bool)
      requires Consistent()
      modifies this
      ensures Consistent() && acquired == old(acquired) && lost == old(lost)
      ensures ok ==> !driverTouched && !profileDown && !vfioAcquired
      ensures Smooth(p) ==> ok
      ensures ok && (old(driverTouched) || old(profileDown)) ==> !Raises(At(p, 6))
      ensures !old(driverTouched) && !old(profileDown) ==>
                && ok && driver == old(driver) && driverOverride == old(driverOverride) && profileUp == old(profileUp)
                && reclaims == old(reclaims) && !driverTouched && !profileDown
    {
      if !driverTouched && !profileDown {
        return true;
      }
      if driverTouched {
        ok := RestoreDriver(p);
        if !ok {
          return;
        }
      }
      if profileDown {
        ok := RestoreProfile(p);
        if !ok {
          return;
        }
      }
      ok := !Raises(At(p, 6));
    }

    method RestoreDriver(p: Plan) returns (ok: bool)
      requires Consistent() && driverTouched
      modifies this
      ensures Consistent() && acquired == old(acquired) && lost == old(lost)
      ensures ok ==> !driverTouched && !vfioAcquired
      ensures Smooth(p) ==> ok
      ensures profileDown == old(profileDown)
    {
      if driver != NoDriver && driver != Original {
        ok := Unbind(At(p, 0));
        if !ok {
          return;
        }
      }
      ok := WriteOverride(AsFound, At(p, 1));
      if !ok {
        return;
      }
      if driver != Original {
        ok := Bind(Original, At(p, 2));
        if !ok {
          return;
        }
      }
      if driver != Original {
        return false;
      }
      driverTouched := false;
      if vfioAcquired {
        reclaims := reclaims + 1;
        vfioAcquired := false;
      }
    }

    method RestoreProfile(p: Plan) returns (ok: bool)
      requires Consistent() && profileDown
      modifies this`profileUp, this`profileDown
      ensures Consistent()
      ensures ok ==> !profileDown
      ensures Smooth(p) ==> ok
    {
      if Raises(At(p, 3)) {
        return false;
      }
      if !profileUp {
        if Happens(At(p, 4)) {
          profileUp := true;
        }
        if Raises(At(p, 4)) {
          return false;
        }
      }
      if Raises(At(p, 5)) || !profileUp {
        return false;
      }
      profileDown := false;
      ok := true;
    }
  }

  datatype Outcome = Outcome(driver: Driver, driverOverride: Override, profileUp: bool, reclaims: nat,
                             acquired: bool, returned: bool)

  /** Some restore of the list meets no failure. */
  predicate SomeSmooth(restores: seq<Plan>) {
    exists i :: 0 <= i < |restores| && Smooth(restores[i])
  }

  /**
   One hand-over that fails anywhere, and any number of restores that fail anywhere.  A restore without
   failures always returns; once one has returned, the card and its override are as found, the reclaim was
   recorded once if VFIO had the card and never otherwise, and the profile is up unless the command that
   took it down reported failure.  In that one case every restore returns and none brings it back.
   */
  method Session(managed: bool, bindPlan: Plan, addressesLeft: bool, routesLeft: bool, restores: seq<Plan>)
    returns (o: Outcome)
    ensures SomeSmooth(restores) ==> o.returned
    ensures o.returned ==>
              && o.driver == Original && o.driverOverride == AsFound
              && (o.profileUp <==> !(managed && At(bindPlan, 0) == DoneButFails))
              && o.reclaims == (if o.acquired then 1 else 0)
    ensures managed && At(bindPlan, 0) == DoneButFails ==> !o.profileUp && (restores != [] ==> o.returned)
    ensures Smooth(bindPlan) && !addressesLeft && !routesLeft ==> o.acquired
    ensures managed && (addressesLeft || routesLeft) ==> !o.acquired
    ensures o.reclaims <= 1
    ensures !o.acquired ==> o.reclaims == 0
  {
    var d := new DeviceOwnership(managed);
    var bound := d.BindVfio(bindPlan, addressesLeft, routesLeft);
    var acquired := d.vfioAcquired;
    var returned := false;
    for i := 0 to |restores|
      invariant d.Consistent() && d.acquired == acquired
      invariant d.lost <==> managed && At(bindPlan, 0) == DoneButFails
      invariant d.lost ==> !d.driverTouched && !d.profileDown && (i > 0 ==> returned)
      invariant returned ==> !d.driverTouched && !d.profileDown && !d.vfioAcquired
      invariant SomeSmooth(restores[..i]) ==> returned
    {
      assert restores[..i + 1] == restores[..i] + [restores[i]];
      var ok := d.Restore(restores[i]);
      returned := returned || ok;
    }
    assert restores[..|restores|] == restores;
    o := Outcome(d.driver, d.driverOverride, d.profileUp, d.reclaims, acquired, returned);
  }
}
