/**
 The command-line shell of src/cli.js: `parseArgs` slices the process
 arguments, and `run` dispatches to exactly one store operation.
 */
module Cli {
  import opened Wrappers
  import opened Engine
  import StoreProperties

  /** The command names (`add`, `get`, `list`, `remove`). */
  const ADD := "add"
  const GET := "get"
  const LIST := "list"
  const REMOVE := "remove"

  /** The parsed arguments: the command, if any, and the arguments after it. */
  datatype Args = Args(cmd: Option<string>, cmdArgs: seq<string>)

  /**
   `parseArgs(args = [])`: skips the first two arguments (the node executable
   and the script), takes the third as the command and the rest as its
   arguments; nothing is lost, and with fewer than three arguments there is
   no command and no argument.
   */
  function ParseArgs(args: seq<string> := []): (r: Args)
    ensures |args| < 3 ==> r == Args(None, [])
    ensures |args| >= 3 ==> r.cmd.Some? && args == args[..2] + [r.cmd.value] + r.cmdArgs
    ensures |r.cmdArgs| == if |args| < 3 then 0 else |args| - 3
  {
    if |args| < 3 then Args(None, []) else Args(Some(args[2]), args[3..])
  }

  /** Whatever the executable and script are, the command and its arguments are recovered. */
  lemma ParseArgsRecovers(node: string, script: string, cmd: string, cmdArgs: seq<string>)
    ensures ParseArgs([node, script, cmd] + cmdArgs) == Args(Some(cmd), cmdArgs)
  {
    var args := [node, script, cmd] + cmdArgs;
    assert args[3..] == cmdArgs;
  }

  /** `parseArgs()` without an argument is `parseArgs([])`. */
  lemma ParseArgsDefault()
    ensures ParseArgs() == ParseArgs([]) == Args(None, [])
  {
  }

  datatype Command = AddCommand | GetCommand | ListCommand | RemoveCommand

  /** The name the user types for each command. */
  function CommandName(c: Command): string
  {
    match c
    case AddCommand => ADD
    case GetCommand => GET
    case ListCommand => LIST
    case RemoveCommand => REMOVE
  }

  /** Where `run` sends the parsed arguments. */
  datatype Route =
    | Call(command: Command, args: seq<string>)  // one store operation, with the arguments spread
    | NoCommand                                  // "You must specify a command"
    | InvalidCommand(cmd: string)                // "is not a valid command"

  /**
   The `switch` of `run`: a falsy command is refused first; a command naming
   one of the four operations calls exactly that one with `cmdArgs` in order;
   any other command is invalid.
   */
  function Dispatch(a: Args): (d: Route)
    ensures d == NoCommand <==> MissingKey(a.cmd)
    ensures d.Call? ==> a.cmd == Some(CommandName(d.command)) && d.args == a.cmdArgs
    ensures d.InvalidCommand? <==>
              !MissingKey(a.cmd) && forall c: Command :: a.cmd.value != CommandName(c)
    ensures d.InvalidCommand? ==> a.cmd == Some(d.cmd)
  {
    if a.cmd.None? || a.cmd.value == "" then NoCommand
    else if a.cmd.value == ADD then Call(AddCommand, a.cmdArgs)
    else if a.cmd.value == GET then Call(GetCommand, a.cmdArgs)
    else if a.cmd.value == LIST then Call(ListCommand, a.cmdArgs)
    else if a.cmd.value == REMOVE then Call(RemoveCommand, a.cmdArgs)
    else InvalidCommand(a.cmd.value)
  }

  /** Each command's name routes to that command and no other, with the arguments unchanged. */
  lemma DispatchByName(c: Command, cmdArgs: seq<string>)
    ensures Dispatch(Args(Some(CommandName(c)), cmdArgs)) == Call(c, cmdArgs)
  {
  }

  /** The first spread argument, `undefined` when there is none. */
  function First(xs: seq<string>): Option<string>
  {
    if |xs| > 0 then Some(xs[0]) else None
  }

  /** The spread arguments after the first. */
  function Rest(xs: seq<string>): seq<string>
  {
    if |xs| > 0 then xs[1..] else []
  }

  /** What `run` reports. */
  datatype Outcome =
    | MustSpecifyCommand
    | NotACommand(cmd: string)
    | Ran(command: Command, report: Report)

  /**
   `run(store, {cmd, cmdArgs})`: a routing error calls no store operation;
   otherwise the routed operation runs with the arguments spread as
   `store.op(...cmdArgs)` spreads them.
   */
  function RunSpec(cfg: Config, s: State, a: Args): (Outcome, State)
  {
    match Dispatch(a)
    case NoCommand => (MustSpecifyCommand, s)
    case InvalidCommand(cmd) => (NotACommand(cmd), s)
    case Call(AddCommand, xs) =>
      var (r, s') := AddSpec(cfg, s, First(xs), Rest(xs));
      (Ran(AddCommand, r), s')
    case Call(GetCommand, xs) => (Ran(GetCommand, GetSpec(cfg, s.files, First(xs))), s)
    case Call(ListCommand, _) =>
      var (r, s') := ListSpec(cfg, s);
      (Ran(ListCommand, r), s')
    case Call(RemoveCommand, xs) =>
      var (r, s') := RemoveSpec(cfg, s, xs);
      (Ran(RemoveCommand, r), s')
  }

  /** A missing or unknown command leaves the store untouched. */
  lemma RoutingErrorsChangeNothing(cfg: Config, s: State, a: Args)
    requires !Dispatch(a).Call?
    ensures RunSpec(cfg, s, a).1 == s
    ensures MissingKey(a.cmd) ==> RunSpec(cfg, s, a).0 == MustSpecifyCommand
    ensures !MissingKey(a.cmd) ==> RunSpec(cfg, s, a).0 == NotACommand(a.cmd.value)
  {
  }

  /**
   From the command line: `store add k v1 .. vn` reports success on a fresh
   key, and `store get k` afterwards prints the values joined by spaces.
   */
  lemma CommandLineRoundTrip(cfg: Config, s: State, node: string, script: string,
                             key: string, values: seq<string>)
    requires RunSpec(cfg, s, ParseArgs([node, script, ADD, key] + values)).0 == Ran(AddCommand, Done)
    ensures var s' := RunSpec(cfg, s, ParseArgs([node, script, ADD, key] + values)).1;
      RunSpec(cfg, s', ParseArgs([node, script, GET, key])).0 == Ran(GetCommand, Found(JoinValues(values)))
  {
    ParseArgsRecovers(node, script, ADD, [key] + values);
    assert [node, script, ADD, key] + values == [node, script, ADD] + ([key] + values);
    ParseArgsRecovers(node, script, GET, [key]);
    assert [node, script, GET, key] == [node, script, GET] + [key];
    assert Rest([key] + values) == values;
    StoreProperties.AddThenGet(cfg, s, key, values);
  }

  /** `run`: dispatches the parsed arguments to the store. */
  method Run(store: Store, a: Args) returns (o: Outcome)
    requires store.Valid()
    modifies store.disk, store.indexFs
    ensures (o, store.Snapshot()) == RunSpec(store.Cfg(), old(store.Snapshot()), a)
  {
    if a.cmd.None? || a.cmd.value == "" {
      return MustSpecifyCommand;
    }
    var cmd := a.cmd.value;
    var r;
    if cmd == ADD {
      r := store.Add(First(a.cmdArgs), Rest(a.cmdArgs));
      o := Ran(AddCommand, r);
    } else if cmd == GET {
      r := store.Get(First(a.cmdArgs));
      o := Ran(GetCommand, r);
    } else if cmd == LIST {
      r := store.List();
      o := Ran(ListCommand, r);
    } else if cmd == REMOVE {
      r := store.Remove(a.cmdArgs);
      o := Ran(RemoveCommand, r);
    } else {
      o := NotACommand(cmd);
    }
  }
}
