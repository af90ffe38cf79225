/**
 * Address validation for the command line: an address is accepted when it parses as a
 * socket address (`IP:PORT`) or, failing that, when it at least contains a colon
 * (`HOSTNAME:PORT`).
 */
module Network {
  import opened Basics

  const InvalidAddress: string := "Invalid address format. Expected IP:PORT or HOSTNAME:PORT"

  /**
   * `validate_ip_port`. `parsesAsSocketAddr` stands for the standard library's
   * `SocketAddr` parser, which the model does not reproduce.
   */
  function ValidateIpPort(addr: string, parsesAsSocketAddr: string -> bool): (r: Result<(), string>)
    ensures r.Ok? <==> parsesAsSocketAddr(addr) || ':' in addr
    ensures r.Err? ==> r.error == InvalidAddress
  {
    if parsesAsSocketAddr(addr) then Ok(())
    else if ':' in addr then Ok(())
    else Err(InvalidAddress)
  }

  /**
   * Every socket address the parser accepts has the form `IP:PORT` or `[IPv6]:PORT`, so
   * it contains a colon. Under that property the validation is exactly "contains a colon".
   */
  lemma AcceptedIffColon(addr: string, parsesAsSocketAddr: string -> bool)
    requires forall a :: parsesAsSocketAddr(a) ==> ':' in a
    ensures ValidateIpPort(addr, parsesAsSocketAddr).Ok? <==> ':' in addr
  {
    if parsesAsSocketAddr(addr) {
      assert ':' in addr;
    }
  }

  /** The unit-test examples: three addresses with a port are accepted, a bare word is not. */
  lemma ValidationExamples(parsesAsSocketAddr: string -> bool)
    requires forall a :: parsesAsSocketAddr(a) ==> ':' in a
    ensures ValidateIpPort("127.0.0.1:7777", parsesAsSocketAddr).Ok?
    ensures ValidateIpPort("192.168.1.100:8080", parsesAsSocketAddr).Ok?
    ensures ValidateIpPort("localhost:7777", parsesAsSocketAddr).Ok?
    ensures ValidateIpPort("invalid", parsesAsSocketAddr) == Err(InvalidAddress)
  {
    assert "127.0.0.1:7777"[9] == ':';
    assert "192.168.1.100:8080"[13] == ':';
    assert "localhost:7777"[9] == ':';
    AcceptedIffColon("invalid", parsesAsSocketAddr);
    assert ':' !in "invalid";
  }
}
