/**
 * `getLocalIp` of the streaming server (image_server/server.js): the address
 * the server prints for clients to connect to. The operating system's
 * interface table (`os.networkInterfaces()`) is an input here: a sequence of
 * named groups in the order `for ... in` enumerates them, each a sequence of
 * interface records.
 */
module LocalAddress {

  datatype NetworkInterface = NetworkInterface(address: string, family: string, internal: bool)

  datatype InterfaceGroup = InterfaceGroup(name: string, entries: seq<NetworkInterface>)

  /** `iface.family === "IPv4" && !iface.internal`. */
  predicate Eligible(iface: NetworkInterface) {
    iface.family == "IPv4" && !iface.internal
  }

  /** No eligible interface comes before entry `j` of group `i`, in nested iteration order. */
  ghost predicate NoneEligibleBefore(table: seq<InterfaceGroup>, i: nat, j: nat) {
    && (forall a, b :: 0 <= a < i && a < |table| && 0 <= b < |table[a].entries| ==>
          !Eligible(table[a].entries[b]))
    && (i < |table| ==> forall b :: 0 <= b < j && b < |table[i].entries| ==>
          !Eligible(table[i].entries[b]))
  }

  /**
   * The address of the first eligible interface in nested iteration order,
   * or "localhost" when there is none.
   */
  method GetLocalIp(table: seq<InterfaceGroup>) returns (host: string)
    ensures || (exists i, j :: 0 <= i < |table| && 0 <= j < |table[i].entries|
                              && Eligible(table[i].entries[j])
                              && NoneEligibleBefore(table, i, j)
                              && host == table[i].entries[j].address)
            || (NoneEligibleBefore(table, |table|, 0) && host == "localhost")
  {
    var i := 0;
    while i < |table|
      invariant 0 <= i <= |table|
      invariant NoneEligibleBefore(table, i, 0)
    {
      var entries := table[i].entries;
      var j := 0;
      while j < |entries|
        invariant 0 <= j <= |entries|
        invariant NoneEligibleBefore(table, i, j)
      {
        if Eligible(entries[j]) {
          return entries[j].address;
        }
        j := j + 1;
      }
      i := i + 1;
    }
    return "localhost";
  }
}
