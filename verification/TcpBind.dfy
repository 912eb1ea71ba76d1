/** Reserving a source port as a transaction on the application's own socket. */
module TcpBind {
  import opened Common

  const EADDRNOTAVAIL: int := 99

  /** What the kernel does with one bind call; a failed one may drop the bound address. */
  datatype BindChoice = Binds(port: u16) | Refuses(errno: int, clears: bool)

  /** One answer of the environment for every system call the transaction can make. */
  datatype Choices = Choices(
    address: Option<int>, option: Option<int>, disable: Option<int>, reserve: BindChoice,
    enable: Option<int>, rebind: BindChoice, restore: Option<int>, readBack: Option<int>)

  class Socket {
    var ip: u32
    var port: u16
    var deferred: bool // IP_BIND_ADDRESS_NO_PORT

    /** setsockopt: `Some(errno)` is a failure that changes nothing. */
    method DeferPort(enabled: bool, fails: Option<int>) returns (r: Result<(), int>)
      modifies this`deferred
      ensures fails.Some? ==> r == Err(fails.value) && deferred == old(deferred)
      ensures fails.None? ==> r == Ok(()) && deferred == enabled
    {
      if fails.Some? {
        return Err(fails.value);
      }
      deferred := enabled;
      r := Ok(());
    }

    /** bind to an address without a port: a port is chosen now unless that is deferred. */
    method Bind(address: u32, choice: BindChoice) returns (r: Result<(), int>)
      modifies this`ip, this`port
      ensures choice.Refuses? ==>
                r == Err(choice.errno) && port == old(port) && ip == if choice.clears then 0 else old(ip)
      ensures choice.Binds? ==> r == Ok(()) && ip == address && port == if deferred then old(port) else choice.port
    {
      match choice
      case Refuses(errno, clears) =>
        if clears {
          ip := 0;
        }
        r := Err(errno);
      case Binds(chosen) =>
        ip := address;
        if !deferred {
          port := chosen;
        }
        r := Ok(());
    }

    method Prepare(c: Choices) returns (r: Result<u16, int>)
      modifies this
      // A port that is already there is reported and nothing is touched.
      ensures old(port) != 0 && c.address.None? ==> r == Ok(old(port)) && unchanged(this)
      // Success: a real port, on the same address, with the option as it was.
      ensures r.Ok? ==> r.value != 0 && port == r.value && ip == old(ip) && deferred == old(deferred)
      // A refused reservation whose rollback calls succeed leaves no trace, even if the refusal dropped the address.
      ensures Reached(c, old(port), old(deferred)) && c.reserve.Refuses? &&
              c.enable.None? && c.rebind.Binds? && c.restore.None? ==>
                r == Err(c.reserve.errno) && unchanged(this)
      // The option is restored even if rebinding fails.
      ensures Reached(c, old(port), old(deferred)) && c.reserve.Refuses? && c.restore.None? ==>
                r.Err? && deferred == old(deferred)
      // A reservation that was granted is never lost: only the option or the report can be missing.
      ensures Reached(c, old(port), old(deferred)) && c.reserve.Binds? ==> port == c.reserve.port && ip == old(ip)
      ensures Reached(c, old(port), old(deferred)) && c.reserve.Binds? && c.reserve.port != 0 && r.Err? ==>
                (old(deferred) && c.restore.Some?) || c.readBack.Some?
      // A reservation that gives no port is an error of its own.
      ensures Reached(c, old(port), old(deferred)) && c.reserve == Binds(0) && c.readBack.None? ==>
                (old(deferred) ==> c.restore.None?) ==> r == Err(99)
      // Failures before the reservation change nothing.
      ensures old(port) == 0 && !Reached(c, old(port), old(deferred)) ==> r.Err? && unchanged(this)
    {
      if c.address.Some? {
        return Err(c.address.value);
      }
      var source := ip;
      if port != 0 {
        return Ok(port);
      }
      if c.option.Some? {
        return Err(c.option.value);
      }
      var delayed := deferred;
      if delayed {
        var disabled := DeferPort(false, c.disable);
        if disabled.Err? {
          return Err(disabled.error);
        }
      }
      var bound := Bind(source, c.reserve);
      if bound.Err? {
        var restored := DeferPort(true, c.enable);
        if restored.Ok? {
          restored := Bind(source, c.rebind);
        }
        var optionRestored := DeferPort(delayed, c.restore);
        if restored.Err? {
          return Err(restored.error);
        }
        if optionRestored.Err? {
          return Err(optionRestored.error);
        }
        return Err(bound.error);
      } else if delayed {
        var restored := DeferPort(delayed, c.restore);
        if restored.Err? {
          return Err(restored.error);
        }
      }
      if c.readBack.Some? {
        return Err(c.readBack.value);
      }
      if port == 0 {
        return Err(EADDRNOTAVAIL);
      }
      r := Ok(port);
    }
  }

  /** The reservation is attempted: nothing failed before it, and there was no port yet. */
  predicate Reached(c: Choices, port: u16, deferred: bool) {
    c.address.None? && port == 0 && c.option.None? && (deferred ==> c.disable.None?)
  }
}
