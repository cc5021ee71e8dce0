/** Which destinations under a TUN default route go direct (cmd/tailproxy/tunscope.go). */
module TunScope {
  import opened Wrappers
  import opened Addr

  datatype Bypass = Routed | BypassUser | BypassDefault

  /** routed is None until the first apply stored it. */
  function ReasonFor(user: seq<Prefix>, def: seq<Prefix>, routed: Option<seq<Prefix>>, ip: Addr): Bypass
  {
    var a := ip.Unmap();
    if InAny(user, a) then BypassUser
    else if InAny(def, a) && (routed.None? || !InAny(routed.value, a)) then BypassDefault
    else Routed
  }
}
