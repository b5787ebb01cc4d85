/** `Handlers`: the table from descriptor number to the resource registered
    under it and the handler to call when a poll reports it ready. The Python
    table is a class attribute, so every `Handlers()` shares it; here that one
    shared table is one object. */
module Dispatch {

  import opened Results

  /** Anything with a `fileno()`: its identity and the descriptor it reported
      when registered. */
  datatype Resource = Resource(ident: nat, fileno: int)

  /** Handlers are opaque procedures; they are told apart by identity. */
  type HandlerId = nat

  datatype Entry = Entry(resource: Resource, handler: HandlerId)

  /** One handler invocation: `handler(resource, flags)`. */
  datatype Call = Call(handler: HandlerId, resource: Resource, flags: int)

  class Handlers {
    var table: map<int, Entry>

    /** Every entry is filed under the descriptor of its own resource. */
    ghost predicate Valid()
      reads this
    {
      forall fd :: fd in table ==> table[fd].resource.fileno == fd
    }

    constructor ()
      ensures Valid() && table == map[]
    {
      table := map[];
    }

    /** Files (resource, handler) under `resource.fileno`, replacing whatever
        was there; every other entry stays as it was. */
    method Register(resource: Resource, handler: HandlerId)
      requires Valid()
      modifies this
      ensures Valid()
      ensures table == old(table)[resource.fileno := Entry(resource, handler)]
      ensures forall fd :: fd != resource.fileno ==> (fd in table <==> fd in old(table))
      ensures forall fd :: fd != resource.fileno && fd in table ==> table[fd] == old(table)[fd]
    {
      table := table[resource.fileno := Entry(resource, handler)];
    }

    /** Calls the handler stored for `fileno` with the stored resource and the
        caller's flags; KeyError when nothing is registered for `fileno`. The
        table is only read. */
    method Handle(fileno: int, flags: int) returns (r: Result<Call>)
      ensures r.Err? <==> fileno !in table
      ensures r.Err? ==> r.error == KeyError
      ensures r.Ok? ==> r.value.handler == table[fileno].handler
      ensures r.Ok? ==> r.value.resource == table[fileno].resource && r.value.flags == flags
      ensures r.Ok? && Valid() ==> r.value.resource.fileno == fileno
    {
      if fileno !in table {
        return Err(KeyError);
      }
      var entry := table[fileno];
      r := Ok(Call(entry.handler, entry.resource, flags));
    }
  }

  /** Registering twice under one descriptor, then dispatching on it, calls
      only the second handler, with the second resource. */
  method LastRegistrationWins(t: Handlers, first: Resource, second: Resource,
                              h1: HandlerId, h2: HandlerId, flags: int) returns (r: Result<Call>)
    requires t.Valid() && first.fileno == second.fileno
    modifies t
    ensures t.Valid()
    ensures r == Ok(Call(h2, second, flags))
  {
    t.Register(first, h1);
    t.Register(second, h2);
    r := t.Handle(second.fileno, flags);
  }

  /** On a fresh table every dispatch is a KeyError. */
  method UnregisteredIsKeyError(fileno: int, flags: int) returns (r: Result<Call>)
    ensures r == Err(KeyError)
  {
    var t := new Handlers();
    r := t.Handle(fileno, flags);
  }
}
