/** The table of bound ports, csp_port.c. Sockets and callbacks are named by numbers. */
module Port {
  import opened Words

  type BindLimit = p: bv8 | p < 63 witness 32

  /** `CSP_PORT_MAX_BIND`: 32 in the shipped configuration. */
  const CSP_PORT_MAX_BIND: BindLimit

  const CSP_ANY: bv8 := 255

  datatype Binding = Closed | Open(socket: nat) | OpenCallback(callback: nat)

  datatype BindResult = Bound | Invalid | Used

  lemma SamePort(p: bv8, q: bv8)
    ensures Num8(p) == Num8(q) <==> p == q
  {}

  /**
   All bindings: of single ports, where one not in the map is closed, and the last entry, for ports
   nobody has bound.
   */
  datatype Bindings = Bindings(ports: map<nat, Binding>, any: Binding) {
    function At(port: bv8): Binding {
      if Num8(port) in ports then ports[Num8(port)] else Closed
    }

    function Callback(port: bv8): (r: Option<nat>)
      ensures r.Some? ==> port <= CSP_PORT_MAX_BIND && Socket(port).None?
    {
      if port > CSP_PORT_MAX_BIND then None else
      match At(port)
      case OpenCallback(cb) => Some(cb)
      case Open(_) => None
      case Closed => if any.OpenCallback? then Some(any.callback) else None
    }

    function Socket(port: bv8): (r: Option<nat>)
      ensures r.Some? ==> port <= CSP_PORT_MAX_BIND
    {
      if port > CSP_PORT_MAX_BIND then None else
      match At(port)
      case Open(s) => Some(s)
      case OpenCallback(_) => None
      case Closed => if any.Open? then Some(any.socket) else None
    }
  }

  /** The bindings with one more. */
  function Extended(t: Bindings, port: bv8, b: Binding): Bindings {
    if port == CSP_ANY then t.(any := b) else t.(ports := t.ports[Num8(port) := b])
  }

  /** The port, or the catch-all, is there to be bound and still free. */
  predicate Bindable(t: Bindings, port: bv8) {
    if port == CSP_ANY then t.any == Closed else port <= CSP_PORT_MAX_BIND && t.At(port) == Closed
  }

  lemma BindingAt(t: Bindings, port: bv8, b: Binding, p: bv8)
    ensures Extended(t, port, b).At(p) == if p == port && port != CSP_ANY then b else t.At(p)
  {
    hide Num8;
    SamePort(p, port);
  }

  lemma AnyIsAbove()
    ensures CSP_ANY > CSP_PORT_MAX_BIND
  {}

  lemma SocketBound(t: Bindings, port: bv8, s: nat, p: bv8)
    requires Bindable(t, port)
    ensures p <= CSP_PORT_MAX_BIND ==>
              var reached := if p == port || (port == CSP_ANY && t.At(p) == Closed) then Some(s) else t.Socket(p);
              Extended(t, port, Open(s)).Socket(p) == reached
    ensures Extended(t, port, Open(s)).Callback(p) == if p == port then None else t.Callback(p)
  {
    hide Bindings.At;
    AnyIsAbove();
    BindingAt(t, port, Open(s), p);
  }

  lemma CallbackBound(t: Bindings, port: bv8, c: nat, p: bv8)
    requires Bindable(t, port)
    ensures p <= CSP_PORT_MAX_BIND ==>
              var reached := if p == port || (port == CSP_ANY && t.At(p) == Closed) then Some(c) else t.Callback(p);
              Extended(t, port, OpenCallback(c)).Callback(p) == reached
    ensures Extended(t, port, OpenCallback(c)).Socket(p) == if p == port then None else t.Socket(p)
  {
    hide Bindings.At;
    AnyIsAbove();
    BindingAt(t, port, OpenCallback(c), p);
  }

  class PortTable {
    var ports: map<nat, Binding>
    var any: Binding

    function Table(): Bindings
      reads this
    {
      Bindings(ports, any)
    }

    /** What a port is bound to itself. */
    function At(port: bv8): Binding
      reads this
    {
      Table().At(port)
    }

    /** `csp_port_get_callback`. */
    function GetCallback(port: bv8): (r: Option<nat>)
      reads this
      ensures r.Some? ==> port <= CSP_PORT_MAX_BIND && GetSocket(port).None?
    {
      Table().Callback(port)
    }

    /** `csp_port_get_socket`. */
    function GetSocket(port: bv8): (r: Option<nat>)
      reads this
      ensures r.Some? ==> port <= CSP_PORT_MAX_BIND
    {
      Table().Socket(port)
    }

    constructor ()
      ensures any == Closed && forall p :: At(p) == Closed
      ensures forall p :: GetSocket(p).None? && GetCallback(p).None?
    {
      ports := map[];
      any := Closed;
    }

    /** `csp_bind`: on success the port, or every port without a binding of its own, reaches the socket. */
    method Bind(socket: Option<nat>, port: bv8) returns (r: BindResult)
      modifies this
      ensures r == Bound <==> socket.Some? && Bindable(old(Table()), port)
      ensures r == Used ==> socket.Some? && (port == CSP_ANY || port <= CSP_PORT_MAX_BIND)
      ensures r != Bound ==> Table() == old(Table())
      ensures r == Bound ==> Table() == Extended(old(Table()), port, Open(socket.value))
      ensures r == Bound ==>
                forall p :: p <= CSP_PORT_MAX_BIND ==>
                  GetSocket(p) == if p == port || (port == CSP_ANY && old(At(p)) == Closed) then socket
                               else old(GetSocket(p))
      ensures r == Bound ==> forall p :: GetCallback(p) == if p == port then None else old(GetCallback(p))
    {
      hide Bindings.At, Bindings.Callback, Bindings.Socket;
      ghost var before := Table();
      if socket.None? {
        return Invalid;
      }
      if port == CSP_ANY {
        if any != Closed {
          return Used;
        }
        any := Open(socket.value);
      } else {
        if port > CSP_PORT_MAX_BIND {
          return Invalid;
        }
        if At(port) != Closed {
          return Used;
        }
        ports := ports[Num8(port) := Open(socket.value)];
      }
      forall p
        ensures p <= CSP_PORT_MAX_BIND ==>
                  GetSocket(p) == if p == port || (port == CSP_ANY && before.At(p) == Closed) then socket
                               else old(GetSocket(p))
        ensures GetCallback(p) == if p == port then None else old(GetCallback(p))
      {
        SocketBound(before, port, socket.value, p);
      }
      return Bound;
    }

    /** `csp_bind_callback`. */
    method BindCallback(callback: Option<nat>, port: bv8) returns (r: BindResult)
      modifies this
      ensures r == Bound <==> callback.Some? && Bindable(old(Table()), port)
      ensures r == Used ==> callback.Some? && (port == CSP_ANY || port <= CSP_PORT_MAX_BIND)
      ensures r != Bound ==> Table() == old(Table())
      ensures r == Bound ==> Table() == Extended(old(Table()), port, OpenCallback(callback.value))
      ensures r == Bound ==>
                forall p :: p <= CSP_PORT_MAX_BIND ==>
                  GetCallback(p) == if p == port || (port == CSP_ANY && old(At(p)) == Closed) then callback
                               else old(GetCallback(p))
      ensures r == Bound ==> forall p :: GetSocket(p) == if p == port then None else old(GetSocket(p))
    {
      hide Bindings.At, Bindings.Callback, Bindings.Socket;
      ghost var before := Table();
      if callback.None? {
        return Invalid;
      }
      if port == CSP_ANY {
        if any != Closed {
          return Used;
        }
        any := OpenCallback(callback.value);
      } else {
        if port > CSP_PORT_MAX_BIND {
          return Invalid;
        }
        if At(port) != Closed {
          return Used;
        }
        ports := ports[Num8(port) := OpenCallback(callback.value)];
      }
      forall p
        ensures p <= CSP_PORT_MAX_BIND ==>
                  GetCallback(p) == if p == port || (port == CSP_ANY && before.At(p) == Closed) then callback
                               else old(GetCallback(p))
        ensures GetSocket(p) == if p == port then None else old(GetSocket(p))
      {
        CallbackBound(before, port, callback.value, p);
      }
      return Bound;
    }
  }
}
