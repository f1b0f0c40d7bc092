/** The argument parser and command builder of `config route add` and
    `config route del`: the words after the sub-command are checked for length
    and for the `prefix` and `nexthop` keywords, cut at the last `nexthop`, and
    turned into one `vtysh` command line. Running the command is not part of
    the model; the handlers' result is the command line they would run. */
module Routes {
  import opened Common

  const PrefixWord: string := "prefix"
  const NexthopWord: string := "nexthop"

  datatype Verb = Add | Del

  datatype RouteError =
    | BadPattern    // fewer than 4 or more than 9 words
    | NoPrefix      // "argument is incomplete, prefix not found!"
    | NoNexthop     // "argument is incomplete, nexthop not found!"
    | BadPrefix     // "prefix is not in pattern!"
    | BadNexthop    // "nexthop is not in pattern!"

  /** The start of the command line, up to the route itself. */
  function Header(verb: Verb): string {
    match verb
    case Add => "sudo vtysh -c \"configure terminal\" -c \"ip route"
    case Del => "sudo vtysh -c \"configure terminal\" -c \"no ip route"
  }

  /** The index of the last occurrence of `x` in `s`, or -1. */
  function LastIndex(s: seq<string>, x: string): (i: int)
    ensures -1 <= i < |s|
    ensures i == -1 <==> x !in s
    ensures 0 <= i ==> s[i] == x && x !in s[i + 1..]
  {
    if s == [] then -1
    else if s[|s| - 1] == x then |s| - 1
    else
      var init := s[..|s| - 1];
      var j := LastIndex(init, x);
      assert s == init + [s[|s| - 1]];
      assert x in s <==> x in init;
      assert 0 <= j ==> s[j + 1..] == init[j + 1..] + [s[|s| - 1]];
      j
  }

  /** The route's clause from the prefix part, and the VRF it names ("" when
      none); an empty prefix part contributes nothing. */
  function PrefixClause(p: seq<string>): Result<(string, string), RouteError> {
    if p == [] then Ok(("", ""))
    else if |p| == 2 then Ok((" " + p[1], ""))
    else if |p| == 4 then Ok((" " + p[3], p[2]))
    else Err(BadPrefix)
  }

  /** The route's clause from the nexthop part: an address, a device, or an
      address in another VRF. */
  function NexthopClause(n: seq<string>, vrf: string): Result<string, RouteError> {
    if |n| == 2 then
      Ok(if vrf == "" then " " + n[1] else " " + n[1] + " vrf " + vrf)
    else if |n| == 3 then
      Ok(if vrf == "" then " " + n[2] else " " + n[2] + " vrf " + vrf)
    else if |n| == 4 then
      Ok(if vrf == "" then " " + n[3] + " nexthop-vrf " + n[2]
         else " " + n[3] + " vrf " + vrf + " nexthop-vrf " + n[2])
    else Err(BadNexthop)
  }

  /** The handler's outcome on the words `args`. */
  function RouteCommand(args: seq<string>, verb: Verb): Result<string, RouteError> {
    if |args| < 4 || |args| > 9 then Err(BadPattern)
    else if PrefixWord !in args then Err(NoPrefix)
    else if NexthopWord !in args then Err(NoNexthop)
    else
      var i := LastIndex(args, NexthopWord);
      match PrefixClause(args[..i])
      case Err(e) => Err(e)
      case Ok((clause, vrf)) =>
        match NexthopClause(args[i..], vrf)
        case Err(e) => Err(e)
        case Ok(hop) => Ok(Header(verb) + clause + hop + "\"")
  }

  /** The index loop of the handlers: every `nexthop` seen moves the cut, so
      the last one decides. */
  method CutAtLastNexthop(args: seq<string>) returns (prefixPart: seq<string>, nexthopPart: seq<string>)
    requires NexthopWord in args
    ensures prefixPart == args[..LastIndex(args, NexthopWord)]
    ensures nexthopPart == args[LastIndex(args, NexthopWord)..]
  {
    prefixPart := [];
    nexthopPart := [];
    for i := 0 to |args|
      invariant var j := LastIndex(args[..i], NexthopWord);
        j >= 0 ==> prefixPart == args[..j] && nexthopPart == args[j..]
    {
      assert args[..i + 1][..i] == args[..i];
      if args[i] == NexthopWord {
        prefixPart := args[..i];
        nexthopPart := args[i..];
      }
    }
    assert args[..|args|] == args;
  }

  /** The handlers' first `+=`: the mask, and the VRF remembered for later. */
  method AppendPrefix(cmd: string, prefixPart: seq<string>) returns (r: Result<(string, string), RouteError>)
    ensures PrefixClause(prefixPart).Err? ==> r == Err(BadPrefix)
    ensures PrefixClause(prefixPart).Ok? ==>
      r == Ok((cmd + PrefixClause(prefixPart).value.0, PrefixClause(prefixPart).value.1))
  {
    var out := cmd;
    var vrf := "";
    assert cmd + "" == cmd;
    if prefixPart != [] {
      if |prefixPart| == 2 {
        out := out + (" " + prefixPart[1]);
      } else if |prefixPart| == 4 {
        vrf := prefixPart[2];
        out := out + (" " + prefixPart[3]);
      } else {
        return Err(BadPrefix);
      }
    }
    return Ok((out, vrf));
  }

  /** The handlers' second `+=`: the next hop, qualified by the VRF. */
  method AppendNexthop(cmd: string, nexthopPart: seq<string>, vrf: string) returns (r: Result<string, RouteError>)
    requires nexthopPart != []
    ensures NexthopClause(nexthopPart, vrf).Err? ==> r == Err(BadNexthop)
    ensures NexthopClause(nexthopPart, vrf).Ok? ==> r == Ok(cmd + NexthopClause(nexthopPart, vrf).value)
  {
    var out := cmd;
    if |nexthopPart| == 2 {
      var ip := nexthopPart[1];
      if vrf == "" {
        out := out + (" " + ip);
      } else {
        out := out + (" " + ip + " vrf " + vrf);
      }
    } else if |nexthopPart| == 3 {
      var dev := nexthopPart[2];
      if vrf == "" {
        out := out + (" " + dev);
      } else {
        out := out + (" " + dev + " vrf " + vrf);
      }
    } else if |nexthopPart| == 4 {
      var vrfDst := nexthopPart[2];
      var ip := nexthopPart[3];
      if vrf == "" {
        out := out + (" " + ip + " nexthop-vrf " + vrfDst);
      } else {
        out := out + (" " + ip + " vrf " + vrf + " nexthop-vrf " + vrfDst);
      }
    } else {
      return Err(BadNexthop);
    }
    return Ok(out);
  }

  /** `add_route` / `del_route`, as written: the checks, the cut, the two
      appends and the closing quote. The nexthop part is never empty, since it
      starts at a `nexthop`. */
  method BuildRouteCommand(args: seq<string>, verb: Verb) returns (r: Result<string, RouteError>)
    ensures r == RouteCommand(args, verb)
  {
    if |args| < 4 || |args| > 9 {
      return Err(BadPattern);
    }
    if PrefixWord !in args {
      return Err(NoPrefix);
    }
    if NexthopWord !in args {
      return Err(NoNexthop);
    }
    var prefixPart, nexthopPart := CutAtLastNexthop(args);
    var withPrefix := AppendPrefix(Header(verb), prefixPart);
    if withPrefix.Err? {
      return Err(withPrefix.error);
    }
    var (cmd, vrf) := withPrefix.value;
    var withNexthop := AppendNexthop(cmd, nexthopPart, vrf);
    if withNexthop.Err? {
      return Err(withNexthop.error);
    }
    return Ok(withNexthop.value + "\"");
  }

  /** The cut at the last `nexthop` keeps every word: the two parts concatenate
      to the input, and the nexthop part holds no other `nexthop`. */
  lemma SplitAtLastNexthop(args: seq<string>)
    requires NexthopWord in args
    ensures var i := LastIndex(args, NexthopWord);
      && args[..i] + args[i..] == args
      && args[i..][0] == NexthopWord
      && NexthopWord !in args[i..][1..]
  {
    var i := LastIndex(args, NexthopWord);
    assert args[i..][1..] == args[i + 1..];
  }

  /** The words are accepted exactly when there are 4 to 9 of them, both
      keywords occur, the prefix part has 0, 2 or 4 words and the nexthop part
      2, 3 or 4. */
  lemma RouteAccepted(args: seq<string>, verb: Verb)
    ensures RouteCommand(args, verb).Ok? <==>
      && 4 <= |args| <= 9
      && PrefixWord in args
      && NexthopWord in args
      && (var i := LastIndex(args, NexthopWord);
          (i == 0 || i == 2 || i == 4) && (|args| - i == 2 || |args| - i == 3 || |args| - i == 4))
  {
    if 4 <= |args| <= 9 && PrefixWord in args && NexthopWord in args {
      var i := LastIndex(args, NexthopWord);
      PartsOk(args[..i], args[i..]);
    }
  }

  lemma PartsOk(p: seq<string>, n: seq<string>)
    ensures PrefixClause(p).Ok? <==> (|p| == 0 || |p| == 2 || |p| == 4)
    ensures forall vrf :: NexthopClause(n, vrf).Ok? <==> (|n| == 2 || |n| == 3 || |n| == 4)
  {
  }

  /** The failure reported is the first check that fails, in the handler's order. */
  lemma RouteErrorOrder(args: seq<string>, verb: Verb)
    ensures RouteCommand(args, verb) == Err(BadPattern) <==> |args| < 4 || |args| > 9
    ensures RouteCommand(args, verb) == Err(NoPrefix) <==> 4 <= |args| <= 9 && PrefixWord !in args
    ensures RouteCommand(args, verb) == Err(NoNexthop) <==>
      4 <= |args| <= 9 && PrefixWord in args && NexthopWord !in args
    ensures RouteCommand(args, verb) == Err(BadPrefix) <==>
      && 4 <= |args| <= 9 && PrefixWord in args && NexthopWord in args
      && (var i := LastIndex(args, NexthopWord); i != 0 && i != 2 && i != 4)
  {
    if 4 <= |args| <= 9 && PrefixWord in args && NexthopWord in args {
      var i := LastIndex(args, NexthopWord);
      PartsOk(args[..i], args[i..]);
    }
  }

  /** An accepted command line is the header, the route and a closing quote. */
  lemma RouteShape(args: seq<string>, verb: Verb)
    requires RouteCommand(args, verb).Ok?
    ensures var c := RouteCommand(args, verb).value;
      && StartsWith(c, Header(verb))
      && |c| > |Header(verb)|
      && c[|c| - 1] == '"'
  {
    var c := RouteCommand(args, verb).value;
    var i := LastIndex(args, NexthopWord);
    var pc := PrefixClause(args[..i]).value;
    var hop := NexthopClause(args[i..], pc.1).value;
    assert c == Header(verb) + pc.0 + hop + "\"";
    assert c[..|Header(verb)|] == Header(verb);
  }

  /** `prefix <A.B.C.D/M> nexthop <A.B.C.D>` names the route and the next hop. */
  lemma PlainRoute(mask: string, ip: string, verb: Verb)
    requires mask != NexthopWord && ip != NexthopWord
    ensures RouteCommand([PrefixWord, mask, NexthopWord, ip], verb) == Ok(Header(verb) + (" " + mask) + (" " + ip) + "\"")
  {
    var args := [PrefixWord, mask, NexthopWord, ip];
    assert args[0] == PrefixWord;
    var init := args[..3];
    assert init == [PrefixWord, mask, NexthopWord];
    assert LastIndex(init, NexthopWord) == 2;
    assert args[..|args| - 1] == init;
    assert LastIndex(args, NexthopWord) == 2;
    assert args[..2] == [PrefixWord, mask];
    assert args[2..] == [NexthopWord, ip];
  }

  /** `prefix vrf <v> <A.B.C.D/M> nexthop dev <d>` routes through a device in a VRF. */
  lemma VrfDeviceRoute(vrf: string, mask: string, dev: string, verb: Verb)
    requires vrf != "" && vrf != NexthopWord && mask != NexthopWord && dev != NexthopWord
    ensures RouteCommand([PrefixWord, "vrf", vrf, mask, NexthopWord, "dev", dev], verb) ==
      Ok(Header(verb) + (" " + mask) + (" " + dev + " vrf " + vrf) + "\"")
  {
    var args := [PrefixWord, "vrf", vrf, mask, NexthopWord, "dev", dev];
    assert args[0] == PrefixWord;
    var five := args[..5];
    assert five == [PrefixWord, "vrf", vrf, mask, NexthopWord];
    assert LastIndex(five, NexthopWord) == 4;
    var six := args[..6];
    assert six[..5] == five;
    assert six[5] == "dev" != NexthopWord;
    assert LastIndex(six, NexthopWord) == 4;
    assert args[..6] == six;
    assert LastIndex(args, NexthopWord) == 4;
    assert args[..4] == [PrefixWord, "vrf", vrf, mask];
    assert args[4..] == [NexthopWord, "dev", dev];
  }
}
