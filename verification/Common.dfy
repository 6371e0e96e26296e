/** Types shared by every part of the model. */
module Common {
  datatype Option<+T> = None | Some(value: T)

  /** A Go `(value, error)` pair; the error text is not modelled. */
  datatype Result<+T> = Ok(value: T) | Err

  /** An instance of a service, as the registry stores it and the cache tracks it. */
  datatype ServiceInstance = ServiceInstance(
    instanceID: string,
    host: string,
    httpPort: string,
    grpcPort: string,
    metadata: map<string, string>,
    isHealthy: bool,
    lastChecked: int,
    failedChecks: int)

  /** What a caller dials: the part of an instance that probing and merging leave alone. */
  datatype Endpoint = Endpoint(instanceID: string, host: string, httpPort: string, grpcPort: string)

  function EndpointOf(inst: ServiceInstance): Endpoint {
    Endpoint(inst.instanceID, inst.host, inst.httpPort, inst.grpcPort)
  }

  /** 2 to the n-th. */
  function Pow2(n: nat): nat {
    if n == 0 then 1 else 2 * Pow2(n - 1)
  }

  lemma EightMoreBits(n: nat)
    ensures Pow2(n + 8) == 256 * Pow2(n)
  {
    assert Pow2(n + 8) == 16 * Pow2(n + 4) && Pow2(n + 4) == 16 * Pow2(n) by {
      FourMoreBits(n);
      FourMoreBits(n + 4);
    }
  }

  lemma FourMoreBits(n: nat)
    ensures Pow2(n + 4) == 16 * Pow2(n)
  {
    assert Pow2(n + 4) == 2 * Pow2(n + 3) && Pow2(n + 3) == 2 * Pow2(n + 2) && Pow2(n + 2) == 2 * Pow2(n + 1);
  }

  function Max(a: int, b: int): int {
    if a >= b then a else b
  }
}
