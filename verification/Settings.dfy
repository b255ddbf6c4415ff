/** What the panel's configurations say about handlers, transports and targets. */
module Settings {
  import opened Text

  datatype Auth = Auth(user: string, password: string)

  // The transport of a listener, or of a dialer.
  datatype Link = Link(kind: string, password: Option<string>)

  datatype Handler = Handler(kind: string, chain: Option<string>, auth: Option<Auth>)

  datatype Targets = Targets(addrs: seq<string>, strategy: string)

  // `route` is the chain of the listener.
  datatype ServiceSettings = ServiceSettings(
    handler: Handler, listener: Link, route: Option<string>, limiter: Option<string>, forwarder: Option<Targets>)

  // The single hop of a chain, or the rate of a limiter.
  datatype Content =
    | Hop(addr: string, dialer: Link, auth: Option<Auth>, interfaceName: Option<string>)
    | Rate(bytes: int)
}
