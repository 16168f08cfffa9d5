/**
 * The command-line parser of the forwarder (class `Params`): flag/value
 * pairs, four options with a short and a long spelling, port range checks,
 * defaults for the two addresses and rejection of anything else.
 */
module CommandLine {
  import opened Wrappers
  import Decimal

  const DEFAULT_BIND_ADDRESS: string := "0.0.0.0"
  const DEFAULT_FORWARD_ADDRESS: string := "127.0.0.1"
  /** The value a port field keeps until its flag is seen. */
  const UNSET_PORT: int := -1
  const MAX_PORT: int := 65535

  /** The four values `parse` fills in; the source's getters are the field selectors. */
  datatype Params = Params(bindAddress: string, bindPort: int, forwardAddress: string, forwardPort: int)

  /** A fresh `Params` object, before any setter runs. */
  const DEFAULTS: Params := Params(DEFAULT_BIND_ADDRESS, UNSET_PORT, DEFAULT_FORWARD_ADDRESS, UNSET_PORT)

  /** The IllegalArgumentExceptions `parse` throws, one per distinct message. */
  datatype ParseError =
    | Usage              // no message: an unknown option, or an option without its value
    | PortFormat         // the port value is not a 32-bit decimal number
    | PortRange          // the port value is outside (0, 65535]
    | BindPortEmpty      // no bind port was given
    | ForwardPortEmpty   // no forward port was given
  {
    /** The exception's message; the empty text stands for the message-less exception.
        A malformed forward port reports the same "bind port" message as a bind port. */
    function Message(): (r: string)
    {
      match this
      case Usage => ""
      case PortFormat => "bind port number format error."
      case PortRange => "port range must be (0, 65535]."
      case BindPortEmpty => "bind port can't be empty."
      case ForwardPortEmpty => "forward port can't be empty."
    }
  }

  datatype Flag = Bind | Port | ForwardAddress | ForwardPort
  {
    predicate IsPort() { Port? || ForwardPort? }
  }

  /** The option a token names, in either spelling. */
  function FlagOf(token: string): (r: Option<Flag>)
  {
    if token == "-b" || token == "--bind" then Some(Bind)
    else if token == "-p" || token == "--port" then Some(Port)
    else if token == "-fa" || token == "--forward-address" then Some(ForwardAddress)
    else if token == "-fp" || token == "--forward-port" then Some(ForwardPort)
    else None
  }

  /** A port value: parsed as a decimal int, then checked against (0, 65535]. */
  function PortValue(s: string): (r: Result<int, ParseError>)
    ensures r.Ok? <==> Decimal.ParseInt(s).Some? && 1 <= Decimal.ParseInt(s).value <= MAX_PORT
    ensures r.Ok? ==> r.value == Decimal.ParseInt(s).value
    ensures r.Err? ==> (r.error == PortFormat <==> Decimal.ParseInt(s).None?)
    ensures r.Err? ==> r.error == PortFormat || r.error == PortRange
  {
    match Decimal.ParseInt(s)
    case None => Err(PortFormat)
    case Some(port) => if port <= 0 || port > MAX_PORT then Err(PortRange) else Ok(port)
  }

  /** Every port in range, written in decimal, is accepted as itself. */
  lemma PortValueShow(n: int)
    requires 1 <= n <= MAX_PORT
    ensures PortValue(Decimal.Show(n)) == Ok(n)
  {
    Decimal.ParseIntShow(n);
  }

  /** The error the pair starting at even index `i` raises, if any. */
  function PairError(argv: seq<string>, i: nat): (r: Option<ParseError>)
    requires i < |argv|
  {
    match FlagOf(argv[i])
    case None => Some(Usage)
    case Some(f) =>
      if i + 1 >= |argv| then Some(Usage)
      else if f.IsPort() && PortValue(argv[i + 1]).Err? then Some(PortValue(argv[i + 1]).error)
      else None
  }

  /** The error of the first failing pair at an even index from `i` on. */
  function FirstPairError(argv: seq<string>, i: nat): (r: Option<ParseError>)
    decreases |argv| - i
  {
    if i >= |argv| then None
    else if PairError(argv, i).Some? then PairError(argv, i)
    else FirstPairError(argv, i + 2)
  }

  /** The value following the last complete pair whose flag is `f`. */
  function LastValue(args: seq<string>, f: Flag): (r: Option<string>)
  {
    if |args| < 2 then None
    else if |args| % 2 == 1 then LastValue(args[..|args| - 1], f)
    else if FlagOf(args[|args| - 2]) == Some(f) then Some(args[|args| - 1])
    else LastValue(args[..|args| - 2], f)
  }

  function AddressOr(v: Option<string>, default: string): (r: string)
  {
    if v.Some? then v.value else default
  }

  function PortOr(v: Option<string>): (r: int)
  {
    if v.Some? && PortValue(v.value).Ok? then PortValue(v.value).value else UNSET_PORT
  }

  /** What the setters leave in a fresh `Params` after the pairs of `args`:
      for each field, the last value given for it, or its default. */
  function Resolved(args: seq<string>): (r: Params)
  {
    Params(AddressOr(LastValue(args, Bind), DEFAULT_BIND_ADDRESS),
           PortOr(LastValue(args, Port)),
           AddressOr(LastValue(args, ForwardAddress), DEFAULT_FORWARD_ADDRESS),
           PortOr(LastValue(args, ForwardPort)))
  }

  /** The outcome of `parse`, stated without its loop: the first bad pair's error,
      else a missing required port, else the resolved values. */
  function ParseSpec(argv: seq<string>): (r: Result<Params, ParseError>)
  {
    match FirstPairError(argv, 0)
    case Some(e) => Err(e)
    case None =>
      if LastValue(argv, Port).None? then Err(BindPortEmpty)
      else if LastValue(argv, ForwardPort).None? then Err(ForwardPortEmpty)
      else Ok(Resolved(argv))
  }

  /** Every port flag seen so far carried a valid port. */
  ghost predicate PortsChecked(args: seq<string>)
  {
    && (LastValue(args, Port).Some? ==> PortValue(LastValue(args, Port).value).Ok?)
    && (LastValue(args, ForwardPort).Some? ==> PortValue(LastValue(args, ForwardPort).value).Ok?)
  }

  /** One accepted pair moves the resolved values by exactly the setter its flag names. */
  lemma ResolvedStep(argv: seq<string>, i: nat)
    requires i % 2 == 0 && i + 1 < |argv| && FlagOf(argv[i]).Some? && PairError(argv, i) == None
    ensures FirstPairError(argv, i) == FirstPairError(argv, i + 2)
    ensures PortsChecked(argv[..i]) ==> PortsChecked(argv[..i + 2])
    ensures var before, after, v := Resolved(argv[..i]), Resolved(argv[..i + 2]), argv[i + 1];
      match FlagOf(argv[i]).value
      case Bind => after == before.(bindAddress := v)
      case Port => PortValue(v).Ok? && after == before.(bindPort := PortValue(v).value)
      case ForwardAddress => after == before.(forwardAddress := v)
      case ForwardPort => PortValue(v).Ok? && after == before.(forwardPort := PortValue(v).value)
  {
    var pre, ext := argv[..i], argv[..i + 2];
    assert ext[..i] == pre;
    assert ext[i] == argv[i] && ext[i + 1] == argv[i + 1];
  }

  /** `Params.parse`: walks the arguments two at a time, filling a fresh `Params`. */
  method Parse(argv: seq<string>) returns (r: Result<Params, ParseError>)
    ensures r == ParseSpec(argv)
  {
    var params := DEFAULTS;
    var i := 0;
    while i < |argv|
      invariant i <= |argv| && i % 2 == 0
      invariant FirstPairError(argv, 0) == FirstPairError(argv, i)
      invariant params == Resolved(argv[..i])
      invariant PortsChecked(argv[..i])
    {
      var p := argv[i];
      if p == "-b" || p == "--bind" {
        if i + 1 >= |argv| {
          return Err(Usage);
        }
        ResolvedStep(argv, i);
        params := params.(bindAddress := argv[i + 1]);
      } else if p == "-p" || p == "--port" {
        if i + 1 >= |argv| {
          return Err(Usage);
        }
        var port := Decimal.ParseInt(argv[i + 1]);
        if port.None? {
          return Err(PortFormat);
        }
        if port.value <= 0 || port.value > MAX_PORT {
          return Err(PortRange);
        }
        ResolvedStep(argv, i);
        params := params.(bindPort := port.value);
      } else if p == "-fa" || p == "--forward-address" {
        if i + 1 >= |argv| {
          return Err(Usage);
        }
        ResolvedStep(argv, i);
        params := params.(forwardAddress := argv[i + 1]);
      } else if p == "-fp" || p == "--forward-port" {
        if i + 1 >= |argv| {
          return Err(Usage);
        }
        var port := Decimal.ParseInt(argv[i + 1]);
        if port.None? {
          return Err(PortFormat);
        }
        if port.value <= 0 || port.value > MAX_PORT {
          return Err(PortRange);
        }
        ResolvedStep(argv, i);
        params := params.(forwardPort := port.value);
      } else {
        return Err(Usage);
      }
      i := i + 2;
    }
    assert argv[..i] == argv;
    if params.bindPort == UNSET_PORT {
      return Err(BindPortEmpty);
    }
    if params.forwardPort == UNSET_PORT {
      return Err(ForwardPortEmpty);
    }
    return Ok(params);
  }

  // ---------------------------------------------------------------------
  // Properties of the parse outcome

  /** No error from `i` on means every pair at an even index from `i` on is accepted. */
  lemma {:induction false} NoPairErrorFrom(argv: seq<string>, i: nat)
    requires i % 2 == 0 && FirstPairError(argv, i) == None
    ensures forall j :: i <= j < |argv| && j % 2 == 0 ==> PairError(argv, j) == None
    decreases |argv| - i
  {
    if i < |argv| {
      NoPairErrorFrom(argv, i + 2);
    }
  }

  /** A failing pair at even index `j` makes the scan fail, with its own error when
      no earlier pair fails. */
  lemma {:induction false} PairErrorFound(argv: seq<string>, i: nat, j: nat)
    requires i % 2 == 0 && j % 2 == 0 && i <= j < |argv| && PairError(argv, j).Some?
    ensures FirstPairError(argv, i).Some?
    ensures (forall k :: i <= k < j && k % 2 == 0 ==> PairError(argv, k) == None) ==>
              FirstPairError(argv, i) == PairError(argv, j)
    decreases j - i
  {
    if i < j && PairError(argv, i).None? {
      PairErrorFound(argv, i + 2, j);
    }
  }

  /** The last value of `f` follows an occurrence of `f` at an even index. */
  lemma {:induction false} LastValueOccurs(args: seq<string>, f: Flag)
    requires LastValue(args, f).Some?
    ensures exists j :: 0 <= j && j + 1 < |args| && j % 2 == 0 && FlagOf(args[j]) == Some(f)
                        && args[j + 1] == LastValue(args, f).value
  {
    var n := |args|;
    if n % 2 == 1 {
      LastValueOccurs(args[..n - 1], f);
      var j :| 0 <= j && j + 1 < n - 1 && j % 2 == 0 && FlagOf(args[..n - 1][j]) == Some(f)
               && args[..n - 1][j + 1] == LastValue(args, f).value;
      assert args[j] == args[..n - 1][j] && args[j + 1] == args[..n - 1][j + 1];
    } else if FlagOf(args[n - 2]) != Some(f) {
      LastValueOccurs(args[..n - 2], f);
      var j :| 0 <= j && j + 1 < n - 2 && j % 2 == 0 && FlagOf(args[..n - 2][j]) == Some(f)
               && args[..n - 2][j + 1] == LastValue(args, f).value;
      assert args[j] == args[..n - 2][j] && args[j + 1] == args[..n - 2][j + 1];
    }
  }

  /** An option given in a complete pair has a last value. */
  lemma {:induction false} LastValueFound(args: seq<string>, f: Flag, j: nat)
    requires j % 2 == 0 && j + 1 < |args| && FlagOf(args[j]) == Some(f)
    ensures LastValue(args, f).Some?
    decreases |args|
  {
    var n := |args|;
    if n % 2 == 1 {
      assert args[..n - 1][j] == args[j];
      LastValueFound(args[..n - 1], f, j);
    } else if FlagOf(args[n - 2]) != Some(f) {
      assert args[..n - 2][j] == args[j];
      LastValueFound(args[..n - 2], f, j);
    }
  }

  /** The option `f` appears at some even index of `argv`. */
  ghost predicate Mentions(argv: seq<string>, f: Flag)
  {
    exists j :: 0 <= j < |argv| && j % 2 == 0 && FlagOf(argv[j]) == Some(f)
  }

  lemma PortValueOfLastPort(argv: seq<string>, f: Flag)
    requires f.IsPort() && FirstPairError(argv, 0) == None && LastValue(argv, f).Some?
    ensures PortValue(LastValue(argv, f).value).Ok?
  {
    NoPairErrorFrom(argv, 0);
    LastValueOccurs(argv, f);
    var j :| 0 <= j && j + 1 < |argv| && j % 2 == 0 && FlagOf(argv[j]) == Some(f)
             && argv[j + 1] == LastValue(argv, f).value;
    assert PairError(argv, j) == None;
  }

  /** A successful parse has both ports in (0, 65535]. */
  lemma ParsedPortsInRange(argv: seq<string>)
    requires ParseSpec(argv).Ok?
    ensures 1 <= ParseSpec(argv).value.bindPort <= MAX_PORT
    ensures 1 <= ParseSpec(argv).value.forwardPort <= MAX_PORT
  {
    PortValueOfLastPort(argv, Port);
    PortValueOfLastPort(argv, ForwardPort);
  }

  /** Without an address flag the addresses keep their defaults. */
  lemma DefaultAddresses(argv: seq<string>)
    requires ParseSpec(argv).Ok?
    ensures !Mentions(argv, Bind) ==> ParseSpec(argv).value.bindAddress == DEFAULT_BIND_ADDRESS
    ensures !Mentions(argv, ForwardAddress) ==>
              ParseSpec(argv).value.forwardAddress == DEFAULT_FORWARD_ADDRESS
  {
    if LastValue(argv, Bind).Some? {
      LastValueOccurs(argv, Bind);
    }
    if LastValue(argv, ForwardAddress).Some? {
      LastValueOccurs(argv, ForwardAddress);
    }
  }

  /** A recognised option in the last position, with no value after it, is rejected;
      with the message-less exception when every earlier pair is accepted. */
  lemma MissingValueRejected(argv: seq<string>)
    requires |argv| % 2 == 1 && FlagOf(argv[|argv| - 1]).Some?
    ensures ParseSpec(argv).Err?
    ensures (forall k :: 0 <= k < |argv| - 1 && k % 2 == 0 ==> PairError(argv, k) == None) ==>
              ParseSpec(argv) == Err(Usage)
  {
    PairErrorFound(argv, 0, |argv| - 1);
  }

  /** A token at an even index that names none of the four options is rejected. */
  lemma UnknownOptionRejected(argv: seq<string>, i: nat)
    requires i < |argv| && i % 2 == 0 && FlagOf(argv[i]) == None
    ensures ParseSpec(argv).Err?
    ensures (forall k :: 0 <= k < i && k % 2 == 0 ==> PairError(argv, k) == None) ==>
              ParseSpec(argv) == Err(Usage)
  {
    PairErrorFound(argv, 0, i);
  }

  /** A port value that is not a 32-bit number, or is outside (0, 65535], is rejected. */
  lemma BadPortRejected(argv: seq<string>, i: nat)
    requires i + 1 < |argv| && i % 2 == 0
    requires FlagOf(argv[i]).Some? && FlagOf(argv[i]).value.IsPort()
    requires Decimal.ParseInt(argv[i + 1]).None? ||
             !(1 <= Decimal.ParseInt(argv[i + 1]).value <= MAX_PORT)
    ensures ParseSpec(argv).Err?
    ensures (forall k :: 0 <= k < i && k % 2 == 0 ==> PairError(argv, k) == None) ==>
              ParseSpec(argv) == Err(if Decimal.ParseInt(argv[i + 1]).None? then PortFormat else PortRange)
  {
    PairErrorFound(argv, 0, i);
  }

  /** Leaving out `-p` or `-fp` is rejected; when every pair is accepted, the bind
      port is reported first. */
  lemma MissingPortRejected(argv: seq<string>)
    requires !Mentions(argv, Port) || !Mentions(argv, ForwardPort)
    ensures ParseSpec(argv).Err?
    ensures FirstPairError(argv, 0) == None && !Mentions(argv, Port) ==>
              ParseSpec(argv) == Err(BindPortEmpty)
    ensures FirstPairError(argv, 0) == None && Mentions(argv, Port) ==>
              ParseSpec(argv) == Err(ForwardPortEmpty)
  {
    if FirstPairError(argv, 0) == None && Mentions(argv, Port) {
      var j :| 0 <= j < |argv| && j % 2 == 0 && FlagOf(argv[j]) == Some(Port);
      NoPairErrorFrom(argv, 0);
      assert PairError(argv, j) == None;
      LastValueFound(argv, Port, j);
    }
    if LastValue(argv, Port).Some? {
      LastValueOccurs(argv, Port);
    }
    if LastValue(argv, ForwardPort).Some? {
      LastValueOccurs(argv, ForwardPort);
    }
  }

  /** Pairs after an occurrence of `f` that do not name `f` leave its value in place. */
  lemma {:induction false} LastValueSkips(s: seq<string>, t: seq<string>, f: Flag)
    requires |s| % 2 == 0 && |t| % 2 == 0
    requires forall j :: 0 <= j < |t| && j % 2 == 0 ==> FlagOf(t[j]) != Some(f)
    ensures LastValue(s + t, f) == LastValue(s, f)
    decreases |t|
  {
    if t == [] {
      assert s + t == s;
    } else {
      var n := |t|;
      var st := s + t;
      assert |st| % 2 == 0 && |st| >= 2;
      assert st[..|st| - 2] == s + t[..n - 2];
      assert st[|st| - 2] == t[n - 2];
      assert FlagOf(t[n - 2]) != Some(f);
      assert LastValue(st, f) == LastValue(st[..|st| - 2], f);
      forall j | 0 <= j < n - 2 && j % 2 == 0
        ensures FlagOf(t[..n - 2][j]) != Some(f)
      {
        assert t[..n - 2][j] == t[j];
      }
      LastValueSkips(s, t[..n - 2], f);
    }
  }

  /** When an option is repeated, the value given last is the one kept. */
  lemma RepeatedFlagLastWins(s: seq<string>, flag: string, v: string, t: seq<string>)
    requires |s| % 2 == 0 && |t| % 2 == 0 && FlagOf(flag).Some?
    requires forall j :: 0 <= j < |t| && j % 2 == 0 ==> FlagOf(t[j]) != FlagOf(flag)
    requires ParseSpec(s + [flag, v] + t).Ok?
    ensures var c := ParseSpec(s + [flag, v] + t).value;
      match FlagOf(flag).value
      case Bind => c.bindAddress == v
      case Port => PortValue(v) == Ok(c.bindPort)
      case ForwardAddress => c.forwardAddress == v
      case ForwardPort => PortValue(v) == Ok(c.forwardPort)
  {
    var f := FlagOf(flag).value;
    var head := s + [flag, v];
    var argv := s + [flag, v] + t;
    assert head + t == argv;
    LastValueSkips(head, t, f);
    assert head[|head| - 2] == flag && head[|head| - 1] == v;
    assert LastValue(argv, f) == Some(v);
    assert ParseSpec(argv).value == Resolved(argv);
    if f.IsPort() {
      PortValueOfLastPort(argv, f);
    }
  }

  /** Replacing the value of an address pair never changes how the other pairs are read. */
  lemma {:induction false} AddressValueNotRead(args: seq<string>, i: nat, x: string, f: Flag)
    requires i % 2 == 0 && i + 1 < |args|
    requires FlagOf(args[i]) == Some(Bind) || FlagOf(args[i]) == Some(ForwardAddress)
    requires Some(f) != FlagOf(args[i])
    ensures LastValue(args[i + 1 := x], f) == LastValue(args, f)
    decreases |args|
  {
    var n := |args|;
    var upd := args[i + 1 := x];
    assert |upd| == n;
    if n % 2 == 1 {
      var front := args[..n - 1];
      assert front[i] == args[i];
      assert upd[..n - 1] == front[i + 1 := x];
      AddressValueNotRead(front, i, x, f);
      assert LastValue(upd, f) == LastValue(upd[..n - 1], f);
    } else if i + 2 == n {
      assert upd[..n - 2] == args[..n - 2];
      assert upd[n - 2] == args[n - 2];
    } else {
      var front := args[..n - 2];
      assert front[i] == args[i];
      assert upd[..n - 2] == front[i + 1 := x];
      assert upd[n - 2] == args[n - 2] && upd[n - 1] == args[n - 1];
      AddressValueNotRead(front, i, x, f);
    }
  }

  lemma {:induction false} AddressValueNoPairError(argv: seq<string>, i: nat, x: string, k: nat)
    requires i % 2 == 0 && i + 1 < |argv| && k % 2 == 0
    requires FlagOf(argv[i]) == Some(Bind) || FlagOf(argv[i]) == Some(ForwardAddress)
    ensures FirstPairError(argv[i + 1 := x], k) == FirstPairError(argv, k)
    decreases |argv| - k
  {
    if k < |argv| {
      var upd := argv[i + 1 := x];
      assert upd[k] == argv[k];
      if k != i && k + 1 < |argv| {
        assert upd[k + 1] == argv[k + 1];
      }
      assert PairError(upd, k) == PairError(argv, k);
      AddressValueNoPairError(argv, i, x, k + 2);
    }
  }

  /** Values are consumed strictly in pairs: an address value, even one spelled like
      an option, is never read as a flag, and only its own field depends on it. */
  lemma AddressValueNeverAFlag(argv: seq<string>, i: nat, x: string)
    requires i % 2 == 0 && i + 1 < |argv|
    requires FlagOf(argv[i]) == Some(Bind) || FlagOf(argv[i]) == Some(ForwardAddress)
    ensures ParseSpec(argv[i + 1 := x]).Ok? == ParseSpec(argv).Ok?
    ensures ParseSpec(argv).Err? ==> ParseSpec(argv[i + 1 := x]) == ParseSpec(argv)
    ensures ParseSpec(argv).Ok? ==>
              var c, c' := ParseSpec(argv).value, ParseSpec(argv[i + 1 := x]).value;
              c'.bindPort == c.bindPort && c'.forwardPort == c.forwardPort &&
              (FlagOf(argv[i]) == Some(Bind) ==> c'.forwardAddress == c.forwardAddress) &&
              (FlagOf(argv[i]) == Some(ForwardAddress) ==> c'.bindAddress == c.bindAddress)
  {
    AddressValueNoPairError(argv, i, x, 0);
    AddressValueNotRead(argv, i, x, Port);
    AddressValueNotRead(argv, i, x, ForwardPort);
    if FlagOf(argv[i]) == Some(Bind) {
      AddressValueNotRead(argv, i, x, ForwardAddress);
    } else {
      AddressValueNotRead(argv, i, x, Bind);
    }
  }
}
