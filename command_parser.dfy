/**
 * `Utils::Command`, `Utils::CommandTask` and `Utils::CommandParser`
 * (xProject/utils/CommandParser.hpp): a console line is split at
 * whitespace into a title and arguments, the title selects a registered
 * task, and a task flagged as requiring arguments refuses a command that
 * has none.  Each call of a task's function is recorded in the task's
 * `calls` field.
 */
module CommandParsing {

  /** `std::isspace` in the "C" locale: space, tab, newline, vertical tab, form feed, carriage return. */
  predicate IsSpace(c: char)
  {
    c == ' ' || c == '\t' || c == '\n' || c == '\U{000B}' || c == '\U{000C}' || c == '\r'
  }

  /** A token as `operator>>` produces it: non-empty and free of whitespace. */
  predicate IsToken(t: string)
  {
    t != [] && forall i | 0 <= i < |t| :: !IsSpace(t[i])
  }

  /** The input with its leading whitespace removed. */
  function DropSpace(s: string): (r: string)
    ensures |r| <= |s|
    ensures r != [] ==> !IsSpace(r[0])
    decreases |s|
  {
    if s != [] && IsSpace(s[0]) then DropSpace(s[1..]) else s
  }

  /** The longest whitespace-free prefix. */
  function Word(s: string): (r: string)
    ensures |r| <= |s|
    ensures forall i | 0 <= i < |r| :: !IsSpace(r[i])
    decreases |s|
  {
    if s != [] && !IsSpace(s[0]) then [s[0]] + Word(s[1..]) else []
  }

  /** The whitespace-separated tokens of the input, in order: what repeated `operator>>` extracts. */
  function Tokens(s: string): seq<string>
    decreases |s|
  {
    var t := DropSpace(s);
    if t == [] then [] else
      var w := Word(t);
      [w] + Tokens(t[|w|..])
  }

  /** The printable inverse of `Tokens`: the tokens separated by one space. */
  function Join(ts: seq<string>): string
    decreases |ts|
  {
    if ts == [] then []
    else if |ts| == 1 then ts[0]
    else ts[0] + " " + Join(ts[1..])
  }

  /** The non-whitespace characters of the input, in order. */
  function NonSpace(s: string): string
    decreases |s|
  {
    if s == [] then [] else (if IsSpace(s[0]) then [] else [s[0]]) + NonSpace(s[1..])
  }

  function Concat(ts: seq<string>): string
    decreases |ts|
  {
    if ts == [] then [] else ts[0] + Concat(ts[1..])
  }

  // ---------------------------------------------------------------------
  // Command

  datatype Command = Command(fullCommand: string, titleCommand: string, arguments: seq<string>)
  {
    /** `ArgumentsEmpty`. */
    predicate ArgumentsEmpty()
    {
      arguments == []
    }
  }

  /**
   * What `Command(input)` holds: the first token is the title and the
   * remaining tokens are the arguments.  When there is no token the
   * extraction fails and leaves the title empty.
   */
  function Parse(input: string): (r: Command)
    ensures r.fullCommand == input
    ensures r.titleCommand == [] ==> r.arguments == []
    ensures forall a | a in r.arguments :: IsToken(a)
    ensures r.titleCommand + Concat(r.arguments) == NonSpace(input)
  {
    TokensAreTokens(input);
    TokensKeepNonSpace(input);
    var ts := Tokens(input);
    assert ts != [] ==> ts[0] in ts && Concat(ts) == ts[0] + Concat(ts[1..]);
    Command(input, if ts == [] then "" else ts[0], if ts == [] then [] else ts[1..])
  }

  /**
   * One `iss >> str` on a stream whose unread characters are `stream`:
   * skip whitespace; at the end of the input fail, otherwise append
   * characters to the token up to the next whitespace or the end.
   */
  method Extract(stream: string) returns (ok: bool, token: string, rest: string)
    ensures ok <==> DropSpace(stream) != []
    ensures ok ==> token == Word(DropSpace(stream)) && rest == DropSpace(stream)[|token|..]
    ensures !ok ==> rest == []
    ensures |rest| <= |stream|
    ensures Tokens(stream) == (if ok then [token] else []) + Tokens(rest)
  {
    rest := stream;
    while rest != [] && IsSpace(rest[0])
      invariant DropSpace(rest) == DropSpace(stream) && |rest| <= |stream|
    {
      rest := rest[1..];
    }
    if rest == [] {
      return false, [], [];
    }
    ghost var start := rest;
    token := [];
    while rest != [] && !IsSpace(rest[0])
      invariant token + rest == start
      invariant token + Word(rest) == Word(start)
    {
      token := token + [rest[0]];
      rest := rest[1..];
    }
    assert Word(rest) == [];
    assert start[|token|..] == rest;
    ok := true;
  }

  /** The extraction loop of `ParsingCommandLine`. */
  method ParsingCommandLine(input: string) returns (c: Command)
    ensures c == Parse(input)
  {
    var titleOk, titleCommand, stream := Extract(input);
    if !titleOk {
      titleCommand := [];
    }
    var arguments: seq<string> := [];
    var ok, arg, rest := Extract(stream);
    while ok
      invariant titleOk ==> Tokens(input) == [titleCommand] + arguments + (if ok then [arg] else []) + Tokens(rest)
      invariant !titleOk ==> !ok && arguments == [] && Tokens(input) == []
      invariant !ok ==> rest == []
      decreases |rest| + (if ok then 1 else 0)
    {
      arguments := arguments + [arg];
      ok, arg, rest := Extract(rest);
    }
    c := Command(input, titleCommand, arguments);
    if titleOk {
      assert Tokens(input) == [titleCommand] + arguments;
    }
  }

  // ---------------------------------------------------------------------
  // Tasks and the parser

  /** Whether a task whose required-arguments flag is `required` runs its function on `c`. */
  predicate Runs(required: bool, c: Command)
  {
    !(required && c.ArgumentsEmpty())
  }

  class CommandTask {
    var requiredArgs: bool
    /** The commands the task's function has been called with, in order. */
    var calls: seq<Command>

    constructor ()
      ensures !requiredArgs && calls == []
    {
      requiredArgs := false;
      calls := [];
    }

    /** `Execute`: call the function unless the command lacks arguments the task requires. */
    method Execute(command: Command) returns (ran: bool)
      modifies this`calls
      ensures ran == Runs(requiredArgs, command)
      ensures calls == old(calls) + (if ran then [command] else [])
    {
      var required := IsRequiredArgs();
      if required && command.ArgumentsEmpty() {
        return false;
      }
      calls := calls + [command];
      return true;
    }

    /** `RequiredArgs`: set the flag (again), and return this task. */
    method RequiredArgs() returns (r: CommandTask)
      modifies this`requiredArgs
      ensures requiredArgs && r == this
    {
      requiredArgs := true;
      r := this;
    }

    method IsRequiredArgs() returns (r: bool)
      ensures r == requiredArgs
    {
      r := requiredArgs;
    }
  }

  datatype ParserState = Running | Stopped

  class CommandParser {
    var callbackCommand: map<string, CommandTask>
    var parserState: ParserState

    constructor ()
      ensures callbackCommand == map[] && parserState == Stopped
    {
      callbackCommand := map[];
      parserState := Stopped;
    }

    /** `RegisterCommand`: a fresh task under `name`, replacing any earlier one. */
    method RegisterCommand(name: string) returns (task: CommandTask)
      modifies this`callbackCommand
      ensures fresh(task) && !task.requiredArgs && task.calls == []
      ensures callbackCommand == old(callbackCommand)[name := task]
    {
      task := new CommandTask();
      callbackCommand := callbackCommand[name := task];
    }

    /** `ExecuteParse`, up to its console loop: the parser is running. */
    method ExecuteParse()
      modifies this`parserState
      ensures parserState == Running
    {
      parserState := Running;
    }

    method StopParse()
      modifies this`parserState
      ensures parserState == Stopped
    {
      parserState := Stopped;
    }

    /** The task a line with title `title` runs: none when the title is not registered. */
    function SelectedTask(title: string): set<CommandTask>
      reads this
    {
      if title in callbackCommand then {callbackCommand[title]} else {}
    }

    /** One iteration of the console loop: parse the line and run the task registered under its title, if any. */
    method DispatchLine(input: string) returns (ghost ran: bool)
      modifies callbackCommand.Values`calls
      ensures forall u | u in callbackCommand.Values :: u.requiredArgs == old(u.requiredArgs)
      ensures forall u | u in callbackCommand.Values && u !in SelectedTask(Parse(input).titleCommand) ::
                u.calls == old(u.calls)
      ensures var c := Parse(input);
              c.titleCommand in callbackCommand ==>
                var t := callbackCommand[c.titleCommand];
                && ran == Runs(t.requiredArgs, c)
                && t.calls == old(t.calls) + (if ran then [c] else [])
      ensures Parse(input).titleCommand !in callbackCommand ==> !ran && unchanged(callbackCommand.Values)
    {
      var inputCommand := ParsingCommandLine(input);
      ran := false;
      if inputCommand.titleCommand in callbackCommand {
        ran := callbackCommand[inputCommand.titleCommand].Execute(inputCommand);
      }
    }
  }

  // ---------------------------------------------------------------------
  // Properties of the tokenizer

  /** Every token is non-empty and holds no whitespace. */
  lemma {:induction false} TokensAreTokens(s: string)
    ensures forall t | t in Tokens(s) :: IsToken(t)
    decreases |s|
  {
    var t := DropSpace(s);
    if t != [] {
      var w := Word(t);
      TokensAreTokens(t[|w|..]);
      assert w[0] == t[0];
    }
  }

  /** Whitespace-only input gives an empty title and no arguments. */
  lemma {:induction false} AllSpaceIsEmpty(s: string)
    requires forall i | 0 <= i < |s| :: IsSpace(s[i])
    ensures Tokens(s) == []
    ensures Parse(s).titleCommand == [] && Parse(s).ArgumentsEmpty()
    decreases |s|
  {
    if s != [] {
      AllSpaceIsEmpty(s[1..]);
    }
  }

  lemma {:induction false} NonSpaceOfSpaces(s: string)
    ensures NonSpace(s) == NonSpace(DropSpace(s))
    decreases |s|
  {
    if s != [] && IsSpace(s[0]) {
      NonSpaceOfSpaces(s[1..]);
    }
  }

  lemma {:induction false} NonSpaceOfWord(s: string)
    ensures NonSpace(s) == Word(s) + NonSpace(s[|Word(s)|..])
    decreases |s|
  {
    if s != [] && !IsSpace(s[0]) {
      NonSpaceOfWord(s[1..]);
      assert s[1..][|Word(s[1..])|..] == s[|Word(s)|..];
    }
  }

  /** Tokenizing loses only whitespace: the tokens put together are the input's other characters. */
  lemma {:induction false} TokensKeepNonSpace(s: string)
    ensures Concat(Tokens(s)) == NonSpace(s)
    decreases |s|
  {
    NonSpaceOfSpaces(s);
    var t := DropSpace(s);
    if t != [] {
      var w := Word(t);
      TokensKeepNonSpace(t[|w|..]);
      NonSpaceOfWord(t);
    }
  }

  lemma {:induction false} WordOfToken(w: string, rest: string)
    requires IsToken(w)
    requires rest == [] || IsSpace(rest[0])
    ensures Word(w + rest) == w
    decreases |w|
  {
    assert (w + rest)[0] == w[0];
    if |w| > 1 {
      assert (w + rest)[1..] == w[1..] + rest;
      WordOfToken(w[1..], rest);
    } else {
      assert (w + rest)[1..] == rest;
    }
  }

  /** Joining well-formed tokens with single spaces and tokenizing again gives the same tokens. */
  lemma {:induction false} TokensOfJoin(ts: seq<string>)
    requires forall t | t in ts :: IsToken(t)
    ensures Tokens(Join(ts)) == ts
    decreases |ts|
  {
    if ts == [] {
    } else if |ts| == 1 {
      var w := ts[0];
      assert w + [] == w;
      WordOfToken(w, []);
      assert w[|w|..] == [];
    } else {
      var w := ts[0];
      var rest := " " + Join(ts[1..]);
      assert Join(ts) == w + rest;
      WordOfToken(w, rest);
      assert (w + rest)[|w|..] == rest;
      assert DropSpace(rest) == DropSpace(Join(ts[1..])) by {
        assert rest[1..] == Join(ts[1..]);
      }
      TokensOfJoin(ts[1..]);
      JoinedStartsWithToken(ts[1..]);
    }
  }

  /** The join of non-empty well-formed tokens starts with a non-space, so nothing is dropped in front of it. */
  lemma JoinedStartsWithToken(ts: seq<string>)
    requires ts != [] && forall t | t in ts :: IsToken(t)
    ensures DropSpace(Join(ts)) == Join(ts)
  {
    assert ts[0] in ts;
    if |ts| > 1 {
      assert Join(ts) == ts[0] + (" " + Join(ts[1..]));
    }
    assert Join(ts)[0] == ts[0][0];
  }

  /** `ArgumentsEmpty` on a parsed line: the line holds at most one token. */
  lemma ArgumentsEmptyIffOneToken(input: string)
    ensures Parse(input).ArgumentsEmpty() <==> |Tokens(input)| <= 1
  {
  }

  /** A line's title and arguments, written back with single spaces, parse to the same title and arguments. */
  lemma ParseOfOwnTokens(input: string)
    ensures var c := Parse(input);
            var again := Parse(Join(Tokens(input)));
            again.titleCommand == c.titleCommand && again.arguments == c.arguments
  {
    TokensAreTokens(input);
    TokensOfJoin(Tokens(input));
  }
}
