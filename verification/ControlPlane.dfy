/**
 The text control plane of the harness (control.c): variables that commands read and
 write, and replies that are clipped to the caller's buffer.
 */
module ControlPlane {
  import opened Words

  const ULLONG_MAX: u64 := 0xFFFF_FFFF_FFFF_FFFF

  datatype Kind = VT_BOOL | VT_U64

  /** ControlVar, with the value its pointer leads to. */
  datatype Var = Var(name: string, kind: Kind, readOnly: bool, value: u64)

  // ----- decimal numbers

  function DigitChar(d: nat): char
    requires d < 10
  {
    ('0' as int + d) as char
  }

  predicate IsDigit(c: char) { '0' <= c <= '9' }

  function DigitOf(c: char): nat
    requires IsDigit(c)
  {
    c as int - '0' as int
  }

  predicate AllDigits(s: string) { forall i :: 0 <= i < |s| ==> IsDigit(s[i]) }

  /** %llu */
  function Decimal(n: nat): (s: string)
    ensures s != [] && AllDigits(s)
  {
    if n < 10 then [DigitChar(n)] else Decimal(n / 10) + [DigitChar(n % 10)]
  }

  function DigitsValue(s: string): nat
    requires AllDigits(s)
  {
    if s == [] then 0 else 10 * DigitsValue(s[..|s| - 1]) + DigitOf(s[|s| - 1])
  }

  lemma {:induction false} ValueOfDecimal(n: nat)
    ensures DigitsValue(Decimal(n)) == n
    decreases n
  {
    if n >= 10 {
      ValueOfDecimal(n / 10);
      var s := Decimal(n);
      assert s[..|s| - 1] == Decimal(n / 10);
    }
  }

  predicate IsSpace(c: char) { c == ' ' || '\t' <= c <= '\r' }

  /** Index of the first character from i on that is no white space / no digit. */
  function SkipSpace(s: string, i: nat): (j: nat)
    requires i <= |s|
    ensures i <= j <= |s|
    decreases |s| - i
  {
    if i < |s| && IsSpace(s[i]) then SkipSpace(s, i + 1) else i
  }

  function SkipDigits(s: string, i: nat): (j: nat)
    requires i <= |s|
    ensures i <= j <= |s| && AllDigits(s[i..j]) && (j < |s| ==> !IsDigit(s[j]))
    decreases |s| - i
  {
    if i < |s| && IsDigit(s[i]) then
      var j := SkipDigits(s, i + 1);
      assert forall k :: i < k < j ==> s[k] == s[i + 1..j][k - (i + 1)];
      j
    else i
  }

  /** strtoull in base 10: the value, and whether the whole text was a number. Values that
      do not fit give ULLONG_MAX, and a minus sign negates in uint64_t. */
  datatype Number = Number(value: u64, whole: bool)

  function Strtoull(s: string): Number {
    var i := SkipSpace(s, 0);
    var signed := i < |s| && (s[i] == '-' || s[i] == '+');
    var k := if signed then i + 1 else i;
    var j := SkipDigits(s, k);
    var v := DigitsValue(s[k..j]);
    Number(if v > ULLONG_MAX then ULLONG_MAX else if signed && s[i] == '-' then U64(-(v as int)) else v,
           k < j && j == |s|)
  }

  /** What was printed with %llu is read back. */
  lemma {:induction false} StrtoullOfDecimal(n: u64)
    ensures Strtoull(Decimal(n)) == Number(n, true)
  {
    var s := Decimal(n);
    assert IsDigit(s[0]);
    ValueOfDecimal(n);
    assert s[0..|s|] == s;
  }

  // ----- variables

  /** lookup_var: the first variable of that name, or |vars|. */
  function Lookup(vars: seq<Var>, name: string): (i: nat)
    ensures i <= |vars| && (i < |vars| ==> vars[i].name == name)
    ensures forall j :: 0 <= j < i ==> vars[j].name != name
  {
    if vars == [] then 0
    else if vars[0].name == name then 0
    else 1 + Lookup(vars[1..], name)
  }

  /** var_get_str */
  function Shown(v: Var): string {
    match v.kind
    case VT_BOOL => if v.value != 0 then "1" else "0"
    case VT_U64 => Decimal(v.value)
  }

  datatype Result = Ok(value: u64) | Err(message: string)

  /** var_set_str */
  function Parse(kind: Kind, text: string): Result {
    match kind
    case VT_BOOL =>
      if text == "0" then Ok(0) else if text == "1" then Ok(1) else Err("expected 0 or 1")
    case VT_U64 =>
      var n := Strtoull(text);
      if n.whole then Ok(n.value) else Err("expected unsigned integer")
  }

  // ----- replies

  /** What snprintf leaves of a text in a buffer of `size` characters. */
  function Clip(text: string, size: nat): (s: string)
    requires size > 0
    ensures |s| < size && s <= text && (|text| < size ==> s == text)
  {
    if |text| < size then text else text[..size - 1]
  }

  const COMMANDS_HELP: seq<string> := [
    "ping                  - sanity check, returns 'pong'",
    "help                  - list commands and variables",
    "get <name> | get all  - read a variable",
    "set <name> <value>    - write a variable"]

  /** %-<width>s */
  function PadRight(s: string, width: nat): string
    decreases width - |s|
  {
    if |s| >= width then s else PadRight(s + " ", width)
  }

  function HelpLine(v: Var): string {
    "  " + PadRight(v.name, 18) + " " + PadRight(if v.kind == VT_BOOL then "bool" else "u64", 4)
    + " " + (if v.readOnly then "R " else "RW") + "\n"
  }

  function GetLine(v: Var): string { v.name + "=" + Shown(v) + "\n" }

  function CommandLine(help: string): string { "  " + help + "\n" }

  /** The lines of a table, one after the other. */
  function Lines<T>(xs: seq<T>, line: T -> string): string {
    if xs == [] then [] else Lines(xs[..|xs| - 1], line) + line(xs[|xs| - 1])
  }

  /** The full listings of `help` and `get all`. */
  function HelpListing(vars: seq<Var>): string {
    "OK commands:\n" + Lines(COMMANDS_HELP, CommandLine) + "variables:\n" + Lines(vars, HelpLine)
  }

  function GetListing(vars: seq<Var>): string { "OK\n" + Lines(vars, GetLine) }

  // ----- commands

  function DropWhile(s: string, drop: char -> bool): (r: string)
    ensures |r| <= |s| && (r != [] ==> !drop(r[0]))
  {
    if s != [] && drop(s[0]) then DropWhile(s[1..], drop) else s
  }

  function Blank(c: char): bool { c == ' ' || c == '\t' }
  function Trailing(c: char): bool { c == '\n' || c == '\r' || c == ' ' || c == '\t' }
  function IsBlank(c: char): bool { c == ' ' }

  function TrimEnd(s: string): string {
    if s != [] && Trailing(s[|s| - 1]) then TrimEnd(s[..|s| - 1]) else s
  }

  /** strchr(s, ' '), or the end. */
  function FirstBlank(s: string): (i: nat)
    ensures i <= |s| && (i < |s| ==> s[i] == ' ') && forall j :: 0 <= j < i ==> s[j] != ' '
  {
    if s == [] || s[0] == ' ' then 0 else 1 + FirstBlank(s[1..])
  }

  /** The variables after a command, and its whole reply before clipping. */
  datatype Outcome = Outcome(vars: seq<Var>, reply: string)

  function Get(vars: seq<Var>, args: string): string {
    if args == [] then "ERR usage: get <name> | get all"
    else if args == "all" then GetListing(vars)
    else
      var i := Lookup(vars, args);
      if i == |vars| then "ERR unknown variable '" + args + "'" else "OK " + Shown(vars[i])
  }

  const NAME_SIZE := 128

  function Set(vars: seq<Var>, args: string): Outcome {
    var sp := FirstBlank(args);
    if sp == |args| then Outcome(vars, "ERR usage: set <name> <value>")
    else if sp == 0 || sp >= NAME_SIZE then Outcome(vars, "ERR bad variable name")
    else
      var name, val := args[..sp], DropWhile(args[sp + 1..], IsBlank);
      var i := Lookup(vars, name);
      if val == [] then Outcome(vars, "ERR usage: set <name> <value>")
      else if i == |vars| then Outcome(vars, "ERR unknown variable '" + name + "'")
      else if vars[i].readOnly then Outcome(vars, "ERR " + name + " is read-only")
      else match Parse(vars[i].kind, val)
           case Err(message) => Outcome(vars, "ERR " + message)
           case Ok(n) => var v := vars[i].(value := n); Outcome(vars[i := v], "OK " + name + "=" + Shown(v))
  }

  const SCRATCH := 512

  function Dispatch(vars: seq<Var>, verb: string, args: string): Outcome {
    if verb == "ping" then Outcome(vars, "OK pong")
    else if verb == "help" then Outcome(vars, HelpListing(vars))
    else if verb == "get" then Outcome(vars, Get(vars, args))
    else if verb == "set" then Set(vars, args)
    else Outcome(vars, "ERR unknown command '" + verb + "'")
  }

  /** What the scratch buffer holds of a command, trimmed. */
  function Scratch(c: string): string {
    TrimEnd(if |c| < SCRATCH then c else c[..SCRATCH - 1])
  }

  function Interpret(vars: seq<Var>, buf: string): Outcome {
    if buf == [] then Outcome(vars, "ERR empty command")
    else
      var sp := FirstBlank(buf);
      Dispatch(vars, buf[..sp], if sp < |buf| then DropWhile(buf[sp + 1..], IsBlank) else [])
  }

  /** harness_control_handle, for a response buffer that is not empty. */
  function Handle(vars: seq<Var>, cmd: string): Outcome {
    var c := DropWhile(cmd, Blank);
    if c == [] || c[0] == '\n' || c[0] == '\r' then Outcome(vars, "ERR empty command")
    else Interpret(vars, Scratch(c))
  }

  // ----- properties

  /** One command leaves the names, kinds and access of all variables, and the values of the
      read-only ones. */
  predicate Guarded(vars: seq<Var>, after: seq<Var>) {
    |after| == |vars| && forall i :: 0 <= i < |vars| ==>
      after[i].(value := vars[i].value) == vars[i] && (vars[i].readOnly ==> after[i] == vars[i])
  }

  function HandleAll(vars: seq<Var>, commands: seq<string>): seq<Var> {
    if commands == [] then vars else Handle(HandleAll(vars, commands[..|commands| - 1]), commands[|commands| - 1]).vars
  }

  /** No sequence of commands changes a read-only variable. */
  lemma {:induction false} ReadOnlyKept(vars: seq<Var>, commands: seq<string>)
    ensures Guarded(vars, HandleAll(vars, commands))
    decreases |commands|
  {
    if commands != [] {
      var n := |commands| - 1;
      ReadOnlyKept(vars, commands[..n]);
      hide Handle;
    }
  }

  function Pow10(k: nat): nat { if k == 0 then 1 else 10 * Pow10(k - 1) }

  lemma {:induction false} DecimalShort(n: nat, k: nat)
    requires k > 0 && n < Pow10(k)
    ensures |Decimal(n)| <= k
    decreases k
  {
    if n >= 10 {
      assert k > 1;
      DecimalShort(n / 10, k - 1);
    }
  }

  lemma DecimalFits(n: u64)
    ensures |Decimal(n)| <= 20
  {
    assert Pow10(10) == 1_00000_00000 by { assert Pow10(5) == 1_00000; }
    assert Pow10(20) == 1_00000_00000_00000_00000 by { assert Pow10(15) == 1_00000_00000_00000; }
    hide Pow10, Decimal;
    DecimalShort(n, 20);
  }

  /** A name that commands can carry: no blank in it, none of the trimmed characters at its
      end, short enough for the scratch buffer, and not the word for all variables. */
  predicate Addressable(name: string) {
    && 0 < |name| < NAME_SIZE && ' ' !in name && !Trailing(name[|name| - 1]) && name != "all"
  }

  /** The verb and the arguments of a command that needs no trimming. */
  lemma {:induction false} Splits(verb: string, args: string)
    requires verb != [] && ' ' !in verb && !Trailing(verb[0]) && |verb| + 1 + |args| < SCRATCH
    requires args != [] && args[0] != ' ' && !Trailing(args[|args| - 1])
    ensures forall vars :: Handle(vars, verb + " " + args) == Dispatch(vars, verb, args)
  {
    hide Dispatch;
    var cmd := verb + " " + args;
    assert cmd[0] == verb[0] && cmd[|cmd| - 1] == args[|args| - 1];
    BlankAt(verb, args);
    assert cmd[..|verb|] == verb && cmd[|verb| + 1..] == args;
  }

  lemma BlankAt(x: string, y: string)
    requires ' ' !in x
    ensures FirstBlank(x + " " + y) == |x|
  {
    var s := x + " " + y;
    assert s[|x|] == ' ';
    assert forall k :: 0 <= k < |x| ==> s[k] == x[k];
  }

  /** Setting a value does not change which variable a name finds. */
  lemma LookupStays(vars: seq<Var>, i: nat, n: u64, name: string)
    requires i < |vars|
    ensures Lookup(vars[i := vars[i].(value := n)], name) == Lookup(vars, name)
  {
    LookupByNames(vars, vars[i := vars[i].(value := n)], name);
  }

  lemma {:induction false} LookupByNames(vars: seq<Var>, after: seq<Var>, name: string)
    requires |after| == |vars| && forall k :: 0 <= k < |vars| ==> after[k].name == vars[k].name
    ensures Lookup(after, name) == Lookup(vars, name)
    decreases |vars|
  {
    if vars != [] {
      LookupByNames(vars[1..], after[1..], name);
    }
  }

  /** `name` finds a u64 variable that may be written. */
  predicate Writable(vars: seq<Var>, name: string) {
    var i := Lookup(vars, name);
    i < |vars| && vars[i].kind == VT_U64 && !vars[i].readOnly
  }

  /** The variables with n in the one that `name` finds. */
  function Stored(vars: seq<Var>, name: string, n: u64): seq<Var>
    requires Writable(vars, name)
  {
    var i := Lookup(vars, name);
    vars[i := vars[i].(value := n)]
  }

  /** `set` with n in decimal stores n and nothing else, and `get` then answers n. */
  predicate SetGets(vars: seq<Var>, name: string, n: u64)
    requires Writable(vars, name)
  {
    var after := Stored(vars, name, n);
    && Handle(vars, "set " + name + " " + Decimal(n)) == Outcome(after, "OK " + name + "=" + Decimal(n))
    && Handle(after, "get " + name) == Outcome(after, "OK " + Decimal(n))
  }

  /** So it is for every n below 2^64 and every addressable name. */
  lemma {:induction false} SetThenGet(vars: seq<Var>, name: string, n: u64)
    requires Writable(vars, name) && Addressable(name)
    ensures SetGets(vars, name, n)
  {
    hide Handle, Set, Lookup, Decimal;
    var d := Decimal(n);
    var args := name + " " + d;
    DecimalFits(n);
    assert IsDigit(d[|d| - 1]) && IsDigit(d[0]);
    assert args[0] == name[0] && args[|args| - 1] == d[|d| - 1];
    Splits("set", args);
    assert "set" + " " + args == "set " + name + " " + d;
    GetPlain(Stored(vars, name, n), name);
    SetStores(vars, name, n);
    LookupStays(vars, Lookup(vars, name), n, name);
  }

  lemma {:induction false} SetStores(vars: seq<Var>, name: string, n: u64)
    requires Writable(vars, name) && Addressable(name)
    ensures Set(vars, name + " " + Decimal(n)) == Outcome(Stored(vars, name, n), "OK " + name + "=" + Decimal(n))
  {
    hide Decimal, Lookup, Strtoull;
    var d := Decimal(n);
    var args := name + " " + d;
    BlankAt(name, d);
    assert args[..|name|] == name && args[|name| + 1..] == d;
    assert IsDigit(d[0]);
    StrtoullOfDecimal(n);
  }

  /** `name` finds a boolean that may be written. */
  predicate WritableBool(vars: seq<Var>, name: string) {
    var i := Lookup(vars, name);
    i < |vars| && vars[i].kind == VT_BOOL && !vars[i].readOnly
  }

  /** What `set` does with a text for a boolean: 0 and 1 are stored, anything else is refused. */
  function BoolOutcome(vars: seq<Var>, name: string, text: string): Outcome
    requires WritableBool(vars, name)
  {
    var i := Lookup(vars, name);
    if text == "0" || text == "1"
    then Outcome(vars[i := vars[i].(value := if text == "1" then 1 else 0)], "OK " + name + "=" + text)
    else Outcome(vars, "ERR expected 0 or 1")
  }

  /** For every text, `set` stores exactly 0 and 1, and `get` then answers what was set. */
  lemma {:induction false} SetThenGetBool(vars: seq<Var>, name: string, text: string)
    requires WritableBool(vars, name) && Addressable(name) && 5 + |name| + |text| < SCRATCH
    requires text != [] && text[0] != ' ' && !Trailing(text[|text| - 1])
    ensures var o := BoolOutcome(vars, name, text);
      && Handle(vars, "set " + name + " " + text) == o
      && (text == "0" || text == "1" ==> Handle(o.vars, "get " + name) == Outcome(o.vars, "OK " + text))
  {
    hide Handle, Set, Lookup;
    var args := name + " " + text;
    assert args[0] == name[0] && args[|args| - 1] == text[|text| - 1];
    Splits("set", args);
    assert "set" + " " + args == "set " + name + " " + text;
    SetStoresBool(vars, name, text);
    var o := BoolOutcome(vars, name, text);
    GetPlain(o.vars, name);
    LookupStays(vars, Lookup(vars, name), if text == "1" then 1 else 0, name);
  }

  lemma NothingDropped(text: string)
    requires text != [] && text[0] != ' '
    ensures DropWhile(text, IsBlank) == text
  {}

  lemma {:induction false} SetStoresBool(vars: seq<Var>, name: string, text: string)
    requires WritableBool(vars, name) && Addressable(name) && text != [] && text[0] != ' '
    ensures Set(vars, name + " " + text) == BoolOutcome(vars, name, text)
  {
    hide Lookup, FirstBlank, Trailing, Strtoull, Decimal, DropWhile;
    var args := name + " " + text;
    BlankAt(name, text);
    NothingDropped(text);
    assert args[..|name|] == name && args[|name| + 1..] == text;
  }

  // ----- names that are not addressable

  lemma {:induction false} ScratchDrops(c: string)
    requires c != [] && Trailing(c[|c| - 1])
    ensures Scratch(c) == Scratch(c[..|c| - 1])
  {
    var d := c[..|c| - 1];
    if |c| >= SCRATCH {
      assert c[..SCRATCH - 1] == if |d| < SCRATCH then d else d[..SCRATCH - 1];
    }
  }

  /** `get` trims its command, so a name is taken without trimmed characters at its end. */
  lemma {:induction false} TrailingDropped(vars: seq<Var>, name: string)
    requires name != [] && Trailing(name[|name| - 1])
    ensures Handle(vars, "get " + name) == Handle(vars, "get " + name[..|name| - 1])
  {
    var c, d := "get " + name, "get " + name[..|name| - 1];
    assert c[..|c| - 1] == d;
    ScratchDrops(c);
    hide Handle, Interpret, Scratch;
  }

  lemma {:induction false} TrimmedAway(vars: seq<Var>, name: string)
    ensures Handle(vars, "get " + name) == Handle(vars, "get " + TrimEnd(name))
    ensures TrimEnd(name) <= name && (TrimEnd(name) != [] ==> !Trailing(TrimEnd(name)[|TrimEnd(name)| - 1]))
    decreases |name|
  {
    hide Handle, Trailing;
    if name != [] && Trailing(name[|name| - 1]) {
      TrailingDropped(vars, name);
      TrimmedAway(vars, name[..|name| - 1]);
    }
  }

  /** `get` with a trimmed character at the end of the name answers for another name. */
  lemma {:induction false} GetTrimmed(vars: seq<Var>, name: string)
    requires 0 < |name| < NAME_SIZE && ' ' !in name
    ensures Handle(vars, "get " + name) == Outcome(vars, Get(vars, TrimEnd(name)))
  {
    hide Handle, TrimEnd, Get, Trailing;
    var q := TrimEnd(name);
    TrimmedAway(vars, name);
    if q == [] {
      assert "get " + q == "get ";
      GetNothing(vars);
    } else {
      assert q[0] == name[0] && q[0] in name;
      GetPlain(vars, q);
    }
  }

  lemma GetPlain(vars: seq<Var>, q: string)
    requires 0 < |q| < NAME_SIZE && q[0] != ' ' && !Trailing(q[|q| - 1])
    ensures Handle(vars, "get " + q) == Outcome(vars, Get(vars, q))
  {
    Splits("get", q);
    assert "get" + " " + q == "get " + q;
    hide Handle, Get;
  }

  lemma GetNothing(vars: seq<Var>)
    ensures Handle(vars, "get ") == Outcome(vars, Get(vars, ""))
  {
    assert "get "[..3] == "get";
    hide Get;
  }

  /** A get of a name that does not find variable i does not show what was set in it. */
  lemma {:induction false} GetMisses(vars: seq<Var>, name: string, q: string)
    requires Writable(vars, name) && q != name
    ensures exists n: u64 :: Get(Stored(vars, name, n), q) != "OK " + Decimal(n)
  {
    var j := Lookup(vars, q);
    var n: u64 := if j < |vars| && Shown(vars[j]) == "0" then 1 else 0;
    var after := Stored(vars, name, n);
    LookupStays(vars, Lookup(vars, name), n, q);
    var wanted := "OK " + Decimal(n);
    assert wanted[0] == 'O' && wanted[2] == ' ' && wanted[3..] == Decimal(n);
    if q == "all" {
      ListingIsNoAnswer(after, Decimal(n));
    } else if j < |vars| && q != [] {
      assert ("OK " + Shown(vars[j]))[3..] == Shown(vars[j]);
    }
    assert Get(after, q) != wanted;
  }

  lemma {:induction false} TrailingFails(vars: seq<Var>, name: string)
    requires Writable(vars, name) && 0 < |name| < NAME_SIZE && ' ' !in name && Trailing(name[|name| - 1])
    ensures exists n: u64 :: !SetGets(vars, name, n)
  {
    TrimmedAway(vars, name);
    assert TrimEnd(name) != name;
    GetMisses(vars, name, TrimEnd(name));
    var n: u64 :| Get(Stored(vars, name, n), TrimEnd(name)) != "OK " + Decimal(n);
    GetTrimmed(Stored(vars, name, n), name);
    assert !SetGets(vars, name, n) by { hide Handle, Get, Decimal, Stored; }
  }

  lemma {:induction false} ScratchIsPrefix(c: string, k: nat)
    requires k < |c| && k < SCRATCH - 1 && !Trailing(c[k])
    ensures Scratch(c) <= c && k < |Scratch(c)|
  {
    TrimIsPrefix(if |c| < SCRATCH then c else c[..SCRATCH - 1], k);
  }

  lemma {:induction false} TrimIsPrefix(s: string, k: nat)
    requires k < |s| && !Trailing(s[k])
    ensures TrimEnd(s) <= s && k < |TrimEnd(s)|
    decreases |s|
  {
    if Trailing(s[|s| - 1]) {
      TrimIsPrefix(s[..|s| - 1], k);
    }
  }

  /** `set` sees some prefix of what follows it, without the blanks in front. */
  lemma {:induction false} SetSees(vars: seq<Var>, text: string) returns (p: string)
    ensures p <= text && Handle(vars, "set " + text) == Set(vars, DropWhile(p, IsBlank))
  {
    hide Dispatch, Set, Scratch;
    var c := "set " + text;
    ScratchIsPrefix(c, 2);
    var buf := Scratch(c);
    assert forall k :: 0 <= k < |buf| ==> buf[k] == c[k];
    assert buf[..3] == "set" && FirstBlank(buf) == 3 by {
      assert buf[0] == 's' && buf[1] == 'e' && buf[2] == 't' && (|buf| > 3 ==> buf[3] == ' ');
    }
    p := if |buf| > 3 then buf[4..] else [];
    assert c[4..] == text;
    DispatchSet(vars, DropWhile(p, IsBlank));
  }

  lemma DispatchSet(vars: seq<Var>, args: string)
    ensures Dispatch(vars, "set", args) == Set(vars, args)
  {}

  /** `set` answers with an error, or with a name that it found in front of a blank. */
  lemma {:induction false} SetReplies(vars: seq<Var>, args: string)
    ensures var r := Set(vars, args).reply; r[0] == 'E' || (|r| >= 3 && ' ' !in r[3..])
    ensures FirstBlank(args) == |args| || FirstBlank(args) >= NAME_SIZE ==> Set(vars, args).reply[0] == 'E'
  {
    hide DropWhile, Parse, Shown, Lookup;
    var sp := FirstBlank(args);
    if 0 < sp < |args| && sp < NAME_SIZE {
      var (name, val) := (args[..sp], DropWhile(args[sp + 1..], IsBlank));
      var i := Lookup(vars, name);
      if i < |vars| && Parse(vars[i].kind, val).Ok? {
        OkIsPlain(name, vars[i].(value := Parse(vars[i].kind, val).value));
      }
    }
  }

  lemma OkIsPlain(name: string, v: Var)
    ensures var r := "OK " + name + "=" + Shown(v); ' ' !in name ==> ' ' !in r[3..]
  {
    assert AllDigits(Shown(v));
    assert ("OK " + name + "=" + Shown(v))[3..] == name + "=" + Shown(v);
  }

  /** `set` of a name with a blank in it, without characters or with too many does not answer
      as it should. */
  lemma {:induction false} SetFails(vars: seq<Var>, name: string, d: string)
    requires ' ' in name || name == [] || |name| >= NAME_SIZE
    requires AllDigits(d)
    ensures Handle(vars, "set " + name + " " + d).reply != "OK " + name + "=" + d
  {
    hide Handle, Set, NAME_SIZE;
    var text := name + " " + d;
    assert "set " + name + " " + d == "set " + text;
    var p := SetSees(vars, text);
    var args := DropWhile(p, IsBlank);
    SetReplies(vars, args);
    var wanted := "OK " + name + "=" + d;
    assert wanted[3..] == name + "=" + d && wanted[0] == 'O';
    if ' ' !in name {
      assert forall k :: 0 <= k < |text| && k != |name| ==> text[k] != ' ';
      assert forall k :: 0 <= k < |p| ==> p[k] == text[k];
      if name == [] && p != [] {
        assert args == p[1..];
      }
    }
  }

  /** Exactly: a writable u64 variable can be set to every value and read back if and only
      if its name is addressable. */
  lemma {:induction false} SetGetsIff(vars: seq<Var>, name: string)
    requires Writable(vars, name)
    ensures (forall n: u64 :: SetGets(vars, name, n)) <==> Addressable(name)
  {
    hide SetGets, Handle, Get;
    if Addressable(name) {
      forall n: u64 ensures SetGets(vars, name, n) { SetThenGet(vars, name, n); }
    } else if ' ' in name || name == [] || |name| >= NAME_SIZE {
      SetFails(vars, name, Decimal(0));
      SetGetsNeeds(vars, name, 0);
      assert !SetGets(vars, name, 0);
    } else if name == "all" {
      GetPlain(Stored(vars, name, 0), name);
      SetGetsNeeds(vars, name, 0);
      ListingIsNoAnswer(Stored(vars, name, 0), Decimal(0));
      assert !SetGets(vars, name, 0);
    } else {
      TrailingFails(vars, name);
    }
  }

  lemma SetGetsNeeds(vars: seq<Var>, name: string, n: u64)
    requires Writable(vars, name)
    ensures SetGets(vars, name, n) ==>
      && Handle(vars, "set " + name + " " + Decimal(n)).reply == "OK " + name + "=" + Decimal(n)
      && Handle(Stored(vars, name, n), "get " + name).reply == "OK " + Decimal(n)
  {
    hide Handle, Decimal, Stored;
  }

  lemma ListingIsNoAnswer(vars: seq<Var>, d: string)
    ensures Get(vars, "all") != "OK " + d
  {
    hide Lines;
    assert GetListing(vars)[2] == '\n' && ("OK " + d)[2] == ' ';
  }

  // ----- the replies in place

  /** The buffer holds exactly the longest prefix of `text` that fits, and a terminator. */
  ghost predicate Holds(resp: array<char>, size: nat, text: string)
    requires 0 < size <= resp.Length
    reads resp
  {
    var t := Clip(text, size);
    resp[..|t|] == t && resp[|t|] == '\0'
  }

  /** snprintf(resp + off, size - off, "%s", text) behind the characters `done`: what fits of
      it is written. If all of it did, the reply goes on; if not, the buffer already holds
      what it would hold of any longer text. */
  method Print(resp: array<char>, off: nat, size: nat, text: string, ghost done: string, ghost full: string)
    returns (fits: bool)
    requires off < size <= resp.Length && resp[..off] == done && done + text <= full
    modifies resp
    ensures fits == (off + |text| < size)
    ensures fits ==> resp[..off + |text|] == done + text && resp[off + |text|] == '\0'
    ensures !fits ==> Holds(resp, size, full)
  {
    var t := Clip(text, size - off);
    var i := 0;
    while i < |t|
      invariant 0 <= i <= |t| && resp[..off + i] == done + t[..i]
    {
      assert t[..i + 1] == t[..i] + [t[i]];
      resp[off + i] := t[i];
      i := i + 1;
    }
    assert t[..|t|] == t;
    resp[off + |t|] := '\0';
    fits := |text| < size - off;
    if !fits {
      assert full[..size - 1] == (done + text)[..size - 1] == done + t;
    }
  }

  /** The lines of xs from the i-th on. */
  function LinesFrom<T>(xs: seq<T>, line: T -> string, i: nat): string
    requires i <= |xs|
    decreases |xs| - i
  {
    if i == |xs| then [] else line(xs[i]) + LinesFrom(xs, line, i + 1)
  }

  lemma {:induction false} LinesSplit<T>(xs: seq<T>, line: T -> string, i: nat)
    requires i <= |xs|
    ensures Lines(xs[..i], line) + LinesFrom(xs, line, i) == Lines(xs, line)
    decreases |xs| - i
  {
    if i == |xs| {
      assert xs[..i] == xs;
    } else {
      LinesSplit(xs, line, i + 1);
      LinesGrow(xs, line, i);
      assert Lines(xs[..i], line) + (line(xs[i]) + LinesFrom(xs, line, i + 1))
          == Lines(xs[..i + 1], line) + LinesFrom(xs, line, i + 1);
    }
  }

  lemma LinesGrow<T>(xs: seq<T>, line: T -> string, i: nat)
    requires i < |xs|
    ensures Lines(xs[..i + 1], line) == Lines(xs[..i], line) + line(xs[i])
  {
    assert xs[..i + 1][..i] == xs[..i];
  }

  /** A loop of snprintf calls over a table, with a running offset, that returns at the first
      line that does not fit. */
  method PrintLines<T>(resp: array<char>, off: nat, size: nat, xs: seq<T>, line: T -> string,
                       ghost done: string, ghost full: string)
    returns (fits: bool, end: nat)
    requires off < size <= resp.Length && resp[..off] == done && resp[off] == '\0'
    requires done + Lines(xs, line) <= full
    modifies resp
    ensures fits ==> end < size && resp[..end] == done + Lines(xs, line) && resp[end] == '\0'
    ensures !fits ==> Holds(resp, size, full)
  {
    end := off;
    var i := 0;
    while i < |xs|
      invariant 0 <= i <= |xs| && end < size
      invariant resp[..end] == done + Lines(xs[..i], line) && resp[end] == '\0'
    {
      ghost var before := done + Lines(xs[..i], line);
      LinesGrow(xs, line, i);
      LinesSplit(xs, line, i + 1);
      assert before + line(xs[i]) == done + Lines(xs[..i + 1], line);
      assert before + line(xs[i]) + LinesFrom(xs, line, i + 1) == done + Lines(xs, line);
      assert before + line(xs[i]) <= full;
      var text := line(xs[i]);
      fits := Print(resp, end, size, text, before, full);
      if !fits { return; }
      end := end + |text|;
      i := i + 1;
    }
    assert xs[..|xs|] == xs;
    fits := true;
  }

  /** cmd_get for "all" */
  method PrintGetAll(vars: seq<Var>, resp: array<char>, size: nat)
    requires 0 < size <= resp.Length
    modifies resp
    ensures Holds(resp, size, GetListing(vars))
  {
    ghost var full := GetListing(vars);
    hide Shown, Lines;
    var fits := Print(resp, 0, size, "OK\n", "", full);
    if !fits { return; }
    var end;
    fits, end := PrintLines(resp, 3, size, vars, GetLine, "OK\n", full);
  }

  /** cmd_help */
  method PrintHelp(vars: seq<Var>, resp: array<char>, size: nat)
    requires 0 < size <= resp.Length
    modifies resp
    ensures Holds(resp, size, HelpListing(vars))
  {
    ghost var full := HelpListing(vars);
    hide Lines;
    var fits := Print(resp, 0, size, "OK commands:\n", "", full);
    if !fits { return; }
    var end := 13;
    ghost var done := "OK commands:\n";
    fits, end := PrintLines(resp, end, size, COMMANDS_HELP, CommandLine, done, full);
    if !fits { return; }
    done := done + Lines(COMMANDS_HELP, CommandLine);
    fits := Print(resp, end, size, "variables:\n", done, full);
    if !fits { return; }
    end := end + 11;
    done := done + "variables:\n";
    fits, end := PrintLines(resp, end, size, vars, HelpLine, done, full);
  }

  /** The registered variables and the dispatcher. */
  class Handler {
    var vars: seq<Var>

    constructor (vars: seq<Var>)
      ensures this.vars == vars
    {
      this.vars := vars;
    }

    method Reply(resp: array<char>, size: nat, text: string)
      requires 0 < size <= resp.Length
      modifies resp
      ensures Holds(resp, size, text)
    {
      var fits := Print(resp, 0, size, text, "", text);
    }

    /** cmd_set writes the variable and answers. */
    method CmdSet(args: string, resp: array<char>, size: nat)
      requires 0 < size <= resp.Length
      modifies this, resp
      ensures vars == Set(old(vars), args).vars && Holds(resp, size, Set(old(vars), args).reply)
    {
      hide Holds, Shown, Lookup, FirstBlank, Parse, DropWhile;
      ghost var o := Set(vars, args);
      var sp := FirstBlank(args);
      if sp == |args| { Reply(resp, size, "ERR usage: set <name> <value>"); return; }
      if sp == 0 || sp >= NAME_SIZE { Reply(resp, size, "ERR bad variable name"); return; }
      var name, val := args[..sp], DropWhile(args[sp + 1..], IsBlank);
      if val == [] { Reply(resp, size, "ERR usage: set <name> <value>"); return; }
      var i := Lookup(vars, name);
      if i == |vars| { Reply(resp, size, "ERR unknown variable '" + name + "'"); return; }
      if vars[i].readOnly { Reply(resp, size, "ERR " + name + " is read-only"); return; }
      match Parse(vars[i].kind, val)
      case Err(message) => Reply(resp, size, "ERR " + message);
      case Ok(n) =>
        vars := vars[i := vars[i].(value := n)];
        Reply(resp, size, "OK " + name + "=" + Shown(vars[i]));
    }

    method CmdGet(args: string, resp: array<char>, size: nat)
      requires 0 < size <= resp.Length
      modifies resp
      ensures Holds(resp, size, Get(vars, args))
    {
      hide Holds, Shown, Lookup, GetListing;
      if args == [] {
        Reply(resp, size, "ERR usage: get <name> | get all");
      } else if args == "all" {
        PrintGetAll(vars, resp, size);
      } else {
        var i := Lookup(vars, args);
        if i == |vars| {
          Reply(resp, size, "ERR unknown variable '" + args + "'");
        } else {
          Reply(resp, size, "OK " + Shown(vars[i]));
        }
      }
    }

    /** harness_control_handle: an empty buffer is left alone; otherwise the variables and the
        reply are those of Handle, the reply clipped to the buffer. */
    method HandleCommand(cmd: string, resp: array<char>, size: nat)
      requires size <= resp.Length
      modifies this, resp
      ensures if size == 0 then vars == old(vars) && resp[..] == old(resp[..])
              else vars == Handle(old(vars), cmd).vars && Holds(resp, size, Handle(old(vars), cmd).reply)
    {
      if size == 0 { return; }
      hide Holds, Scratch, DropWhile, FirstBlank, Set, Get, HelpListing;
      var c := DropWhile(cmd, Blank);
      if c == [] || c[0] == '\n' || c[0] == '\r' { Reply(resp, size, "ERR empty command"); return; }
      var buf := Scratch(c);
      if buf == [] { Reply(resp, size, "ERR empty command"); return; }
      var sp := FirstBlank(buf);
      var verb, args := buf[..sp], if sp < |buf| then DropWhile(buf[sp + 1..], IsBlank) else [];
      if verb == "ping" {
        Reply(resp, size, "OK pong");
      } else if verb == "help" {
        PrintHelp(vars, resp, size);
      } else if verb == "get" {
        CmdGet(args, resp, size);
      } else if verb == "set" {
        CmdSet(args, resp, size);
      } else {
        Reply(resp, size, "ERR unknown command '" + verb + "'");
      }
    }
  }
}
