/** Result codes and small types shared by the service components. */
module Common {

  datatype Option<+T> = None | Some(value: T)

  /** Return codes of the service: success, the errno values it produces itself, and any foreign error. */
  datatype Status = Ok | NoMem | Invalid | Already | Pipe | Io | NotPrepared | Foreign

  function Max(a: int, b: int): (m: int)
    ensures m >= a && m >= b && (m == a || m == b)
  {
    if a >= b then a else b
  }
}
