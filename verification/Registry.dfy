/**
 The device registry: one map from IMEI to connection, one from the address of
 a connection object to IMEI.
 */
module Registry {
  import opened Common
  import opened Detect

  /** `uid` is the object, `address` is what id() returns, which a later object may reuse. */
  datatype Socket = Socket(uid: nat, address: nat)

  datatype Entry = Entry(device: DeviceId, protocol: Family, socket: Socket)

  datatype Maps = Maps(byImei: map<Imei, Entry>, bySocket: map<nat, Imei>)

  function Registered(m: Maps, imei: Imei, e: Entry): Maps {
    var keys := if imei in m.byImei then m.bySocket - {m.byImei[imei].socket.address} else m.bySocket;
    Maps(m.byImei[imei := e], keys[e.socket.address := imei])
  }

  function Unregistered(m: Maps, imei: Imei): Maps {
    if imei in m.byImei then Maps(m.byImei - {imei}, m.bySocket - {m.byImei[imei].socket.address}) else m
  }

  function ImeiBySocket(m: Maps, s: Socket): Option<Imei> {
    if s.address in m.bySocket then Some(m.bySocket[s.address]) else None
  }

  class DeviceRegistry {
    var byImei: map<Imei, Entry>
    var bySocket: map<nat, Imei>

    ghost function Contents(): Maps
      reads this
    {
      Maps(byImei, bySocket)
    }

    constructor ()
      ensures Contents() == Maps(map[], map[])
    {
      byImei, bySocket := map[], map[];
    }

    method RegisterDevice(imei: Imei, device: DeviceId, conn: Socket, protocol: Family)
      modifies this
      ensures Contents() == Registered(old(Contents()), imei, Entry(device, protocol, conn))
      ensures Agreement(old(Contents())) ==> Agreement(Contents())
    {
      RegisteredAgrees(Contents(), imei, Entry(device, protocol, conn));
      if imei in byImei {
        bySocket := bySocket - {byImei[imei].socket.address};
      }
      byImei := byImei[imei := Entry(device, protocol, conn)];
      bySocket := bySocket[conn.address := imei];
    }

    method UnregisterDevice(imei: Imei)
      modifies this
      ensures Contents() == Unregistered(old(Contents()), imei)
      ensures Agreement(old(Contents())) ==> Agreement(Contents())
    {
      UnregisteredAgrees(Contents(), imei);
      if imei in byImei {
        var entry := byImei[imei];
        byImei := byImei - {imei};
        bySocket := bySocket - {entry.socket.address};
      }
    }

    method GetImeiBySocket(conn: Socket) returns (imei: Option<Imei>)
      ensures imei == ImeiBySocket(Contents(), conn)
      ensures Agreement(Contents()) && imei.Some? ==>
        imei.value in byImei && byImei[imei.value].socket.address == conn.address
    {
      imei := if conn.address in bySocket then Some(bySocket[conn.address]) else None;
    }
  }

  /** Every address leads to an IMEI whose entry holds a connection at that address. */
  ghost predicate Agreement(m: Maps) {
    forall a :: a in m.bySocket ==> m.bySocket[a] in m.byImei && m.byImei[m.bySocket[a]].socket.address == a
  }

  /** And every entry is found under its connection's address: the maps are inverse to each other. */
  ghost predicate Inverse(m: Maps) {
    && Agreement(m)
    && forall i :: i in m.byImei ==>
         m.byImei[i].socket.address in m.bySocket && m.bySocket[m.byImei[i].socket.address] == i
  }

  lemma RegisteredAgrees(m: Maps, imei: Imei, e: Entry)
    ensures Agreement(m) ==> Agreement(Registered(m, imei, e))
  {}

  lemma UnregisteredAgrees(m: Maps, imei: Imei)
    ensures Agreement(m) ==> Agreement(Unregistered(m, imei))
  {}

  /** Logging a new connection in, or the same one again under its own IMEI, keeps the maps inverse. */
  lemma RegisteredInverse(m: Maps, imei: Imei, e: Entry)
    requires Inverse(m)
    ensures Inverse(Registered(m, imei, e)) <==>
      (e.socket.address !in m.bySocket || m.bySocket[e.socket.address] == imei)
  {
    var r := Registered(m, imei, e);
    RegisteredAgrees(m, imei, e);
    var a := e.socket.address;
    if a in m.bySocket && m.bySocket[a] != imei {
      var other := m.bySocket[a];
      assert other in r.byImei && r.byImei[other].socket.address == a && r.bySocket[a] == imei;
    } else {
      forall i | i in r.byImei
        ensures r.byImei[i].socket.address in r.bySocket && r.bySocket[r.byImei[i].socket.address] == i
      {
        if i != imei {
          var b := m.byImei[i].socket.address;
          assert m.bySocket[b] == i;
          assert imei in m.byImei ==> m.bySocket[m.byImei[imei].socket.address] == imei;
        }
      }
    }
  }

  lemma UnregisteredInverse(m: Maps, imei: Imei)
    requires Inverse(m)
    ensures Inverse(Unregistered(m, imei))
  {
    UnregisteredAgrees(m, imei);
  }

  /** A connection that logs in under two IMEIs loses its key when the first of them reconnects elsewhere. */
  lemma SecondLoginBreaksInverse(first: Imei, second: Imei, d: DeviceId, e: DeviceId, f: Family, s: Socket, t: Socket)
    requires first != second && s.address != t.address
    ensures
      var m := Registered(Registered(Registered(Maps(map[], map[]),
        first, Entry(d, f, s)), second, Entry(e, f, s)), first, Entry(d, f, t));
      && Agreement(m) && !Inverse(m)
      && second in m.byImei && m.byImei[second].socket == s && ImeiBySocket(m, s) == None
  {
    var m1 := Registered(Maps(map[], map[]), first, Entry(d, f, s));
    var m2 := Registered(m1, second, Entry(e, f, s));
    var m3 := Registered(m2, first, Entry(d, f, t));
    assert s.address !in m3.bySocket;
    assert m3.byImei[second].socket.address !in m3.bySocket;
  }
}
