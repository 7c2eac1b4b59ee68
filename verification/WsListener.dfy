/** gost/proxy/server/ws.go: upgrading a request to a websocket connection, with early data from its header. */
module WsListener {
  import opened Bytes
  import opened Websocket
  import EarlyData
  import Base64
  import Lifetime

  datatype Outcome = NotFound | UpgradeFailed | Queued | Dropped

  /** r.Header.Get("Sec-WebSocket-Protocol") */
  function Protocol(request: EarlyData.Headers): Option<bytes> {
    if EarlyData.PROTOCOL in request then Some(request[EarlyData.PROTOCOL]) else None
  }

  lemma EncodedEarly(str: bytes)
    ensures forall data | str == Base64.Encode(data) :: data == if str == [] then [] else Base64.Decode(str).data
  {
    forall data | str == Base64.Encode(data)
      ensures data == if str == [] then [] else Base64.Decode(str).data
    {
      Base64.RoundTrip(data);
    }
  }

  class WSListener {
    const path: string
    var connChan: seq<WebsocketConn>

    constructor (path: string)
      ensures this.path == path && connChan == []
    {
      this.path, connChan := path, [];
    }

    /** `inbox` is what the client sends as messages on the connection, and `conn` the connection if there is one:
        it is queued, or closed when there is no room. */
    method Upgrade(urlPath: string, upgradeOk: bool, request: EarlyData.Headers, inbox: seq<bytes>)
      returns (o: Outcome, conn: WebsocketConn?)
      modifies this`connChan
      ensures o.NotFound? <==> urlPath != path
      ensures o.UpgradeFailed? <==> urlPath == path && !upgradeOk
      ensures o.Queued? <==> urlPath == path && upgradeOk && |old(connChan)| < 1024
      ensures !o.Queued? ==> connChan == old(connChan)
      ensures o.NotFound? || o.UpgradeFailed? ==> conn == null
      ensures o.Queued? ==> |connChan| == |old(connChan)| + 1 && old(connChan) <= connChan && fresh(connChan[|old(connChan)|])
      ensures o.Queued? ==> connChan[|old(connChan)|].View() == Ws(EarlyData.Accept(Protocol(request)), inbox, false)
      ensures o.Queued? ==> conn == connChan[|old(connChan)|] && !conn.closed
      ensures o.Dropped? ==> conn != null && fresh(conn) && conn.closed
      // early data: what an encoder has put into the header
      ensures o.Queued? && "Sec-WebSocket-Protocol" !in request ==> conn.rb == []
      ensures forall data | o.Queued? && "Sec-WebSocket-Protocol" in request &&
                            request["Sec-WebSocket-Protocol"] == Base64.Encode(data) :: conn.rb == data
    {
      if urlPath != path {
        return NotFound, null;
      }
      if !upgradeOk {
        return UpgradeFailed, null;
      }
      var str := if EarlyData.PROTOCOL in request then request[EarlyData.PROTOCOL] else [];
      var early: bytes := [];
      if str != [] {
        var decoded := Base64.Decode(str);   // an error is only logged: what was decoded before it is kept
        early := decoded.data;
      }
      conn := new WebsocketConn(None, early, inbox);
      EncodedEarly(str);
      if |connChan| < Lifetime.CAPACITY {
        connChan := connChan + [conn];
        return Queued, conn;
      }
      conn.Close();
      return Dropped, conn;
    }
  }
}
