/**
 * Lazy per-role provisioning of the two BLE hardware sessions of a node.
 * `BleNode` holds at most one peripheral server (`BlenoBleServer`) and at
 * most one central client (`NobleBleClient`). Each capability request
 * creates its role's session when the slot is still empty and then wraps
 * the stored session in a fresh facade object.
 *
 * The drivers and facades are opaque here: a class stands for each, so that
 * object identity tells whether two facades share one session.
 */
module NodeBle {
  import opened Wrappers

  newtype byte = x: int | 0 <= x < 256

  /** `ByteArray`, a byte buffer. */
  type ByteArray = seq<byte>

  /** The peripheral (advertiser/server) hardware session. */
  class BlenoBleServer {
    constructor () {}
  }

  /** The central (scanner/client) hardware session. */
  class NobleBleClient {
    constructor () {}
  }

  /** Transport interface over the peripheral server. */
  class BlePeripheralInterface {
    const server: BlenoBleServer

    constructor (server: BlenoBleServer)
      ensures this.server == server
    {
      this.server := server;
    }
  }

  /** Instance broadcaster over the peripheral server, with its extra advertisement payload. */
  class BleBroadcaster {
    const server: BlenoBleServer
    const additionalAdvertisementData: Option<ByteArray>

    constructor (server: BlenoBleServer, additionalAdvertisementData: Option<ByteArray>)
      ensures this.server == server
      ensures this.additionalAdvertisementData == additionalAdvertisementData
    {
      this.server := server;
      this.additionalAdvertisementData := additionalAdvertisementData;
    }
  }

  /** Network interface of the central role; it is built without a session reference. */
  class NobleBleCentralInterface {
    constructor () {}
  }

  /** Scanner over the central client. */
  class BleScanner {
    const client: NobleBleClient

    constructor (client: NobleBleClient)
      ensures this.client == client
    {
      this.client := client;
    }
  }

  // ---------------------------------------------------------------------------
  // Specification of the slots: which sessions exist and how many constructions
  // a sequence of capability requests performs.

  datatype Role = Peripheral | Central

  /** The four capability requests of `BleNode`. */
  datatype Request =
    | PeripheralInterface
    | CentralInterface
    | Broadcaster(additionalAdvertisementData: Option<ByteArray>)
    | Scanner

  /** The role whose session backs a request. */
  function RoleOf(q: Request): Role
  {
    match q
    case PeripheralInterface | Broadcaster(_) => Peripheral
    case CentralInterface | Scanner => Central
  }

  /** Which of the two session slots are filled. */
  datatype Slots = Slots(peripheral: bool, central: bool)
  {
    predicate Has(r: Role)
    {
      match r
      case Peripheral => peripheral
      case Central => central
    }
  }

  /** A freshly constructed node: both slots empty. */
  const Unprovisioned := Slots(false, false)

  /**
   * The slots after serving one request: its role's slot is filled, the
   * other role's slot is left as it was, and no slot is ever emptied.
   */
  function Serve(s: Slots, q: Request): (t: Slots)
    ensures t.Has(RoleOf(q))
    ensures forall r :: r != RoleOf(q) ==> t.Has(r) == s.Has(r)
    ensures forall r :: s.Has(r) ==> t.Has(r)
  {
    match RoleOf(q)
    case Peripheral => s.(peripheral := true)
    case Central => s.(central := true)
  }

  /** How many sessions of role `r` serving `q` constructs: one exactly when the slot was empty. */
  function Constructions(s: Slots, q: Request, r: Role): nat
  {
    if RoleOf(q) == r && !s.Has(r) then 1 else 0
  }

  /** The slots after serving the requests in order. */
  function ServeAll(s: Slots, qs: seq<Request>): Slots
    decreases qs
  {
    if qs == [] then s else ServeAll(Serve(s, qs[0]), qs[1..])
  }

  /** Total sessions of role `r` constructed while serving the requests in order. */
  function ConstructionsAll(s: Slots, qs: seq<Request>, r: Role): nat
    decreases qs
  {
    if qs == [] then 0 else Constructions(s, qs[0], r) + ConstructionsAll(Serve(s, qs[0]), qs[1..], r)
  }

  /** Some request in `qs` needs role `r`. */
  predicate Requests(qs: seq<Request>, r: Role)
  {
    exists i :: 0 <= i < |qs| && RoleOf(qs[i]) == r
  }

  /** After any sequence of requests a role's slot is filled exactly when it was already, or some request needed it. */
  lemma {:induction false} ServeAllHas(s: Slots, qs: seq<Request>, r: Role)
    ensures ServeAll(s, qs).Has(r) <==> s.Has(r) || Requests(qs, r)
    decreases qs
  {
    if qs != [] {
      ServeAllHas(Serve(s, qs[0]), qs[1..], r);
      if Requests(qs[1..], r) {
        var i :| 0 <= i < |qs[1..]| && RoleOf(qs[1..][i]) == r;
        assert RoleOf(qs[i + 1]) == r;
      }
      if Requests(qs, r) && RoleOf(qs[0]) != r {
        var i :| 0 <= i < |qs| && RoleOf(qs[i]) == r;
        assert RoleOf(qs[1..][i - 1]) == r;
      }
    }
  }

  /**
   * Across any sequence of requests a role's session is constructed at most
   * once: once if its slot started empty and some request needed it, never
   * otherwise (laziness).
   */
  lemma {:induction false} ConstructedAtMostOnce(s: Slots, qs: seq<Request>, r: Role)
    ensures ConstructionsAll(s, qs, r) == if !s.Has(r) && Requests(qs, r) then 1 else 0
    decreases qs
  {
    if qs != [] {
      var t := Serve(s, qs[0]);
      ConstructedAtMostOnce(t, qs[1..], r);
      if Requests(qs[1..], r) {
        var i :| 0 <= i < |qs[1..]| && RoleOf(qs[1..][i]) == r;
        assert RoleOf(qs[i + 1]) == r;
      }
      if Requests(qs, r) && RoleOf(qs[0]) != r {
        var i :| 0 <= i < |qs| && RoleOf(qs[i]) == r;
        assert RoleOf(qs[1..][i - 1]) == r;
      }
    }
  }

  /** Requests of the other role never fill, and never construct, a role's session. */
  lemma {:induction false} RolesIndependent(s: Slots, qs: seq<Request>, r: Role)
    requires forall i :: 0 <= i < |qs| ==> RoleOf(qs[i]) != r
    ensures ServeAll(s, qs).Has(r) == s.Has(r)
    ensures ConstructionsAll(s, qs, r) == 0
  {
    ServeAllHas(s, qs, r);
    ConstructedAtMostOnce(s, qs, r);
  }

  // ---------------------------------------------------------------------------
  // The node.

  class BleNode {
    var blePeripheral: BlenoBleServer?
    var bleCentral: NobleBleClient?

    /** How many times `new BlenoBleServer()` has run for this node. */
    ghost var peripheralConstructions: nat
    /** How many times `new NobleBleClient()` has run for this node. */
    ghost var centralConstructions: nat

    /** Each session was constructed once if its slot is filled and never otherwise. */
    ghost predicate Valid()
      reads this
    {
      && peripheralConstructions == (if blePeripheral == null then 0 else 1)
      && centralConstructions == (if bleCentral == null then 0 else 1)
    }

    /** The abstract slot state. */
    ghost function Provisioned(): Slots
      reads this
    {
      Slots(blePeripheral != null, bleCentral != null)
    }

    constructor ()
      ensures Valid()
      ensures blePeripheral == null && bleCentral == null
      ensures Provisioned() == Unprovisioned
    {
      blePeripheral := null;
      bleCentral := null;
      peripheralConstructions := 0;
      centralConstructions := 0;
    }

    /** `getBlePeripheralInterface()`. */
    method GetBlePeripheralInterface() returns (r: BlePeripheralInterface)
      requires Valid()
      modifies this`blePeripheral, this`peripheralConstructions
      ensures Valid()
      ensures Provisioned() == Serve(old(Provisioned()), PeripheralInterface)
      ensures peripheralConstructions ==
                old(peripheralConstructions) + Constructions(old(Provisioned()), PeripheralInterface, Peripheral)
      ensures old(blePeripheral) != null ==> blePeripheral == old(blePeripheral)
      ensures old(blePeripheral) == null ==> fresh(blePeripheral)
      ensures bleCentral == old(bleCentral) && centralConstructions == old(centralConstructions)
      ensures fresh(r) && r.server == blePeripheral
    {
      if blePeripheral == null {
        blePeripheral := new BlenoBleServer();
        peripheralConstructions := peripheralConstructions + 1;
      }
      r := new BlePeripheralInterface(blePeripheral);
    }

    /** `getBleCentralInterface()`: ensures the client exists, but the interface does not hold it. */
    method GetBleCentralInterface() returns (r: NobleBleCentralInterface)
      requires Valid()
      modifies this`bleCentral, this`centralConstructions
      ensures Valid()
      ensures Provisioned() == Serve(old(Provisioned()), CentralInterface)
      ensures centralConstructions ==
                old(centralConstructions) + Constructions(old(Provisioned()), CentralInterface, Central)
      ensures old(bleCentral) != null ==> bleCentral == old(bleCentral)
      ensures old(bleCentral) == null ==> fresh(bleCentral)
      ensures blePeripheral == old(blePeripheral) && peripheralConstructions == old(peripheralConstructions)
      ensures fresh(r)
    {
      if bleCentral == null {
        bleCentral := new NobleBleClient();
        centralConstructions := centralConstructions + 1;
      }
      r := new NobleBleCentralInterface();
    }

    /** `getBleBroadcaster(additionalAdvertisementData?)`. */
    method GetBleBroadcaster(additionalAdvertisementData: Option<ByteArray>) returns (r: BleBroadcaster)
      requires Valid()
      modifies this`blePeripheral, this`peripheralConstructions
      ensures Valid()
      ensures Provisioned() == Serve(old(Provisioned()), Broadcaster(additionalAdvertisementData))
      ensures peripheralConstructions ==
                old(peripheralConstructions)
                + Constructions(old(Provisioned()), Broadcaster(additionalAdvertisementData), Peripheral)
      ensures old(blePeripheral) != null ==> blePeripheral == old(blePeripheral)
      ensures old(blePeripheral) == null ==> fresh(blePeripheral)
      ensures bleCentral == old(bleCentral) && centralConstructions == old(centralConstructions)
      ensures fresh(r) && r.server == blePeripheral
      ensures r.additionalAdvertisementData == additionalAdvertisementData
    {
      if blePeripheral == null {
        blePeripheral := new BlenoBleServer();
        peripheralConstructions := peripheralConstructions + 1;
      }
      r := new BleBroadcaster(blePeripheral, additionalAdvertisementData);
    }

    /** `getBleScanner()`. */
    method GetBleScanner() returns (r: BleScanner)
      requires Valid()
      modifies this`bleCentral, this`centralConstructions
      ensures Valid()
      ensures Provisioned() == Serve(old(Provisioned()), Scanner)
      ensures centralConstructions == old(centralConstructions) + Constructions(old(Provisioned()), Scanner, Central)
      ensures old(bleCentral) != null ==> bleCentral == old(bleCentral)
      ensures old(bleCentral) == null ==> fresh(bleCentral)
      ensures blePeripheral == old(blePeripheral) && peripheralConstructions == old(peripheralConstructions)
      ensures fresh(r) && r.client == bleCentral
    {
      if bleCentral == null {
        bleCentral := new NobleBleClient();
        centralConstructions := centralConstructions + 1;
      }
      r := new BleScanner(bleCentral);
    }
  }

  /**
   * A broadcaster with payload [1, 2] and then a transport interface taken
   * from one fresh node: one server is constructed, both facades wrap it, the
   * broadcaster carries the payload, and the central role stays untouched.
   */
  method BroadcasterThenInterface() returns (node: BleNode, b: BleBroadcaster, p: BlePeripheralInterface)
    ensures b.server == p.server && b.server == node.blePeripheral
    ensures b.additionalAdvertisementData == Some([1, 2])
    ensures node.peripheralConstructions == 1
    ensures node.bleCentral == null && node.centralConstructions == 0
  {
    node := new BleNode();
    b := node.GetBleBroadcaster(Some([1, 2]));
    p := node.GetBlePeripheralInterface();
  }
}
