/** utils.py: normalising a host reference into a `(host, port)` pair. */
module HostInfo {
  import opened PyValues

  /** The default secure-shell port used when only a host is given. */
  const DefaultSshPort: int := 22

  /** Why `decode_host_info` raises `ValueError`. */
  datatype DecodeError =
    | WrongLength(value: PyValue)   // a tuple or list without exactly two elements
    | WrongType(value: PyValue)     // neither a tuple, a list nor a string

  /** A decoded `(host, port)` pair, or the `ValueError` raised instead.
      Neither element is converted or validated: a pair's elements are
      returned as they were given. */
  datatype Decoded = Decoded(host: PyValue, port: PyValue) | Invalid(error: DecodeError)

  predicate IsTupleOrList(v: PyValue) {
    v.Tuple? || v.List?
  }

  /** `decode_host_info(host_info)`. */
  function DecodeHostInfo(hostInfo: PyValue): (r: Decoded)
    // a pair decodes to its two elements, in order
    ensures IsTupleOrList(hostInfo) && |hostInfo.items| == 2 ==>
              r == Decoded(hostInfo.items[0], hostInfo.items[1])
    // any other element count is refused
    ensures IsTupleOrList(hostInfo) && |hostInfo.items| != 2 ==>
              r == Invalid(WrongLength(hostInfo))
    // a bare string gets the default port
    ensures hostInfo.Str? ==> r == Decoded(hostInfo, Int(DefaultSshPort))
    // every other type is refused
    ensures !IsTupleOrList(hostInfo) && !hostInfo.Str? ==> r == Invalid(WrongType(hostInfo))
    // success exactly for a pair or a string
    ensures r.Decoded? <==> (hostInfo.Str? || (IsTupleOrList(hostInfo) && |hostInfo.items| == 2))
  {
    if IsTupleOrList(hostInfo) then
      if |hostInfo.items| != 2 then Invalid(WrongLength(hostInfo))
      else Decoded(hostInfo.items[0], hostInfo.items[1])
    else if hostInfo.Str? then
      Decoded(hostInfo, Int(DefaultSshPort))
    else
      Invalid(WrongType(hostInfo))
  }

  /** The tuple `decode_host_info` returns. */
  function AsTuple(d: Decoded): PyValue
    requires d.Decoded?
  {
    Tuple([d.host, d.port])
  }

  /** Decoding is idempotent: the returned 2-tuple decodes to itself. */
  lemma DecodeIdempotent(hostInfo: PyValue)
    requires DecodeHostInfo(hostInfo).Decoded?
    ensures DecodeHostInfo(AsTuple(DecodeHostInfo(hostInfo))) == DecodeHostInfo(hostInfo)
  {
  }

  /** A list and a tuple with the same elements decode alike. */
  lemma TupleAndListAgree(items: seq<PyValue>)
    ensures DecodeHostInfo(Tuple(items)).Decoded? == DecodeHostInfo(List(items)).Decoded?
    ensures |items| == 2 ==> DecodeHostInfo(Tuple(items)) == DecodeHostInfo(List(items))
  {
  }
}
