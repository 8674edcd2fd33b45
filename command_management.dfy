/** `sfdc.util.insertCommand` and `sfdc.util.removeCommands` over the host's
    mutable test case: the command rows are shared objects whose `index` the
    patcher renumbers in place, the test case's list and debug cursor are
    replaced whole, and the module keeps the saved list to restore. */
module CommandManagement {
  import opened Wrappers
  import opened CommandRows

  /** The host's `Command` record. Only `index` is ever reassigned. */
  class Command {
    const command: string
    const target: Option<string>
    const value: Option<string>
    var index: int

    /** `new Command(command, target, value)`. The host's own initial index is
        not part of this model; the patcher always overwrites it. */
    constructor (command: string, target: Option<string>, value: Option<string>)
      ensures this.command == command && this.target == target && this.value == value
    {
      this.command := command;
      this.target := target;
      this.value := value;
      index := 0;
    }

    /** The row as a value. */
    function ToRow(): Row
      reads this
    {
      Row(command, target, value, index)
    }
  }

  /** The rows of a list of command objects, as values. */
  function Rows(cs: seq<Command>): seq<Row>
    reads cs
  {
    seq(|cs|, i reads cs requires 0 <= i < |cs| => cs[i].ToRow())
  }

  /** No row object occurs twice in the list. */
  ghost predicate Distinct(cs: seq<Command>)
  {
    forall i, j :: 0 <= i < j < |cs| ==> cs[i] != cs[j]
  }

  /** The host's `testCase`: its command list and the debugger's cursor
      `debugContext.debugIndex`. */
  class TestCase {
    var commands: seq<Command>
    var debugIndex: int

    /** The host never lists one row object twice. */
    ghost predicate Valid()
      reads this
    {
      Distinct(commands)
    }

    constructor (commands: seq<Command>, debugIndex: int)
      requires Distinct(commands)
      ensures Valid() && this.commands == commands && this.debugIndex == debugIndex
    {
      this.commands := commands;
      this.debugIndex := debugIndex;
    }

    /** `testCase.setCommands(commands)`: the list is replaced whole. */
    method SetCommands(cs: seq<Command>)
      modifies this
      ensures commands == cs && debugIndex == old(debugIndex)
    {
      commands := cs;
    }
  }

  /** The body of `insertCommand` after its snapshot guard: renumber the rows
      after the current one in place, splice the new row in after the cursor,
      append a cleanup row unless the list already ends in one, and hand the
      new list to the host. A cursor outside the list makes the first read of
      `currentRow.index` throw before anything has changed. */
  method PatchCommands(tc: TestCase, command: string, target: Option<string>, value: Option<string>)
    returns (outcome: Outcome)
    requires tc.Valid()
    modifies tc, tc.commands
    ensures tc.Valid() && tc.debugIndex == old(tc.debugIndex)
    ensures outcome == Done <==> 0 <= old(tc.debugIndex) < old(|tc.commands|)
    ensures outcome != Done ==>
      outcome == Fail(TypeError) && tc.commands == old(tc.commands) && Rows(tc.commands) == old(Rows(tc.commands))
    ensures outcome == Done ==>
      var cur, n := old(tc.debugIndex), old(|tc.commands|);
      && Rows(tc.commands) == Insert(old(Rows(tc.commands)), cur, command, target, value)
      && Rows(old(tc.commands)) == Renumber(old(Rows(tc.commands)), old(tc.commands[cur].index))
      && tc.commands[..cur + 1] == old(tc.commands[..cur + 1])
      && tc.commands[cur + 2..n + 1] == old(tc.commands[cur + 1..])
      && fresh(tc.commands[cur + 1])
      && (|tc.commands| == n + 2 ==> fresh(tc.commands[n + 1]))
  {
    var commands := tc.commands;
    var commandCount := |commands|;
    var currentIndex := tc.debugIndex;
    if !(0 <= currentIndex < commandCount) {
      return Fail(TypeError);
    }
    var commandsNew := PatchList(commands, currentIndex, command, target, value);
    tc.SetCommands(commandsNew);
    outcome := Done;
  }

  /** The list `insertCommand` builds from the host's list `commands` with the
      cursor at `currentIndex`; the old list's objects are renumbered in place. */
  method PatchList(commands: seq<Command>, currentIndex: nat,
                   command: string, target: Option<string>, value: Option<string>)
    returns (commandsNew: seq<Command>)
    requires currentIndex < |commands| && Distinct(commands)
    modifies commands
    ensures Distinct(commandsNew)
    ensures Rows(commandsNew) == Insert(old(Rows(commands)), currentIndex, command, target, value)
    ensures Rows(commands) == Renumber(old(Rows(commands)), old(commands[currentIndex].index))
    ensures commandsNew[..currentIndex + 1] == commands[..currentIndex + 1]
    ensures commandsNew[currentIndex + 2..|commands| + 1] == commands[currentIndex + 1..]
    ensures fresh(commandsNew[currentIndex + 1])
    ensures |commandsNew| == |commands| + 2 ==> fresh(commandsNew[|commands| + 1])
  {
    var commandCount := |commands|;
    var lastRow := commands[commandCount - 1];
    ghost var before := Rows(commands);
    commandsNew := RenumberAndSplice(commands, currentIndex, command, target, value);
    ghost var spliced := Spliced(before, currentIndex, command, target, value);
    InsertShape(before, currentIndex, command, target, value);
    if lastRow.command != CLEANUP {
      assert lastRow.ToRow() == Rows(commands)[commandCount - 1];
      ghost var withNew := commandsNew;
      commandsNew := PushCommand(commandsNew, Row(CLEANUP, None, None, lastRow.index + 1), spliced);
      assert commandsNew[currentIndex + 2..commandCount + 1] == withNew[currentIndex + 2..] by {
        assert withNew == commandsNew[..commandCount + 1];
      }
    }
  }

  /** The part of `insertCommand` up to the splice: renumber in place, then
      splice the new row in after the cursor. The old list's objects carry the
      renumbered rows. */
  method RenumberAndSplice(commands: seq<Command>, currentIndex: nat,
                           command: string, target: Option<string>, value: Option<string>)
    returns (commandsNew: seq<Command>)
    requires currentIndex < |commands| && Distinct(commands)
    modifies commands
    ensures Distinct(commandsNew) && |commandsNew| == |commands| + 1
    ensures commandsNew[..currentIndex + 1] == commands[..currentIndex + 1]
    ensures commandsNew[currentIndex + 2..] == commands[currentIndex + 1..]
    ensures fresh(commandsNew[currentIndex + 1])
    ensures Rows(commands) == Renumber(old(Rows(commands)), old(commands[currentIndex].index))
    ensures Rows(commandsNew) == Spliced(old(Rows(commands)), currentIndex, command, target, value)
  {
    ghost var before := Rows(commands);
    var currentRow := commands[currentIndex];
    var commandsNew0 := RenumberRows(commands, currentRow);
    ghost var renumbered := Renumber(before, before[currentIndex].index);
    assert Rows(commandsNew0) == renumbered;
    commandsNew := SpliceCommand(commandsNew0, currentIndex + 1,
                                 Row(command, target, value, currentRow.index + 1), renumbered);
    SplicedShape(before, currentIndex, command, target, value);
  }

  /** The renumbering loop of `insertCommand`: every row numbered after the
      current row moves up by one, in place, and the same row objects are
      collected in the same order. */
  method RenumberRows(commands: seq<Command>, currentRow: Command) returns (commandsNew: seq<Command>)
    requires Distinct(commands) && currentRow in commands
    modifies commands
    ensures commandsNew == commands
    ensures Rows(commands) == Renumber(old(Rows(commands)), old(currentRow.index))
  {
    ghost var before := Rows(commands);
    ghost var pivot := currentRow.index;
    commandsNew := [];
    for i := 0 to |commands|
      invariant commandsNew == commands[..i]
      invariant currentRow.index == pivot
      invariant forall j :: 0 <= j < i ==> commands[j].ToRow() == Bump(before[j], pivot)
      invariant forall j :: i <= j < |commands| ==> commands[j].ToRow() == before[j]
    {
      var row := commands[i];
      if row.index > currentRow.index {
        row.index := row.index + 1;
      }
      commandsNew := commandsNew + [row];
    }
  }

  /** `commands.splice(k, 0, c)` for a new command `c` built by
      `new Command(command, target, value)` and then numbered; `rows` are the
      rows of `commands`. */
  method SpliceCommand(commands: seq<Command>, k: nat, row: Row, ghost rows: seq<Row>)
    returns (commandsNew: seq<Command>)
    requires k <= |commands| && Distinct(commands) && Rows(commands) == rows
    ensures Distinct(commandsNew) && |commandsNew| == |commands| + 1
    ensures commandsNew[..k] == commands[..k] && commandsNew[k + 1..] == commands[k..]
    ensures fresh(commandsNew[k])
    ensures Rows(commandsNew) == rows[..k] + [row] + rows[k..]
  {
    var c := new Command(row.command, row.target, row.value);
    c.index := row.index;
    commandsNew := commands[..k] + [c] + commands[k..];
    RowsSplice(commands, k, c);
    DistinctInsert(commands, k, c);
  }

  /** `commands.push(c)` for a new command `c` built by `new Command(command)`
      and then numbered; `rows` are the rows of `commands`. */
  method PushCommand(commands: seq<Command>, row: Row, ghost rows: seq<Row>)
    returns (commandsNew: seq<Command>)
    requires Distinct(commands) && Rows(commands) == rows
    ensures Distinct(commandsNew) && |commandsNew| == |commands| + 1
    ensures commandsNew[..|commands|] == commands && fresh(commandsNew[|commands|])
    ensures Rows(commandsNew) == rows + [row]
  {
    var c := new Command(row.command, row.target, row.value);
    c.index := row.index;
    commandsNew := commands + [c];
    assert commandsNew == commands[..|commands|] + [c] + commands[|commands|..];
    RowsSplice(commands, |commands|, c);
    DistinctInsert(commands, |commands|, c);
  }

  /** Splicing an object that is not in a list of distinct objects keeps
      the list distinct. */
  lemma DistinctInsert(cs: seq<Command>, k: nat, c: Command)
    requires k <= |cs| && Distinct(cs) && c !in cs
    ensures Distinct(cs[..k] + [c] + cs[k..])
  {
    var r := cs[..k] + [c] + cs[k..];
    forall i, j | 0 <= i < j < |r| ensures r[i] != r[j] {
      if i < k && j > k {
        assert r[j] == cs[j - 1];
      } else if i > k {
        assert r[i] == cs[i - 1] && r[j] == cs[j - 1];
      }
    }
  }

  /** The rows of a list with one object spliced in. */
  lemma RowsSplice(cs: seq<Command>, k: nat, c: Command)
    requires k <= |cs|
    ensures Rows(cs[..k] + [c] + cs[k..]) == Rows(cs)[..k] + [c.ToRow()] + Rows(cs)[k..]
  {
  }

  /** The module state of the command-management namespace:
      `testCaseOriginalCommands`, the list to restore, `[]` when none. */
  class CommandManager {
    var saved: seq<Command>

    ghost predicate Valid()
      reads this
    {
      Distinct(saved)
    }

    constructor ()
      ensures Valid() && saved == []
    {
      saved := [];
    }

    /** `insertCommand` as written: its guard reads `.size` of an array, which
        is `undefined`, and `undefined > 0` is false, so the snapshot is never
        taken and only the patch happens. */
    method InsertCommandAsWritten(tc: TestCase, command: string, target: Option<string>, value: Option<string>)
      returns (outcome: Outcome)
      requires tc.Valid()
      modifies tc, tc.commands
      ensures tc.Valid() && tc.debugIndex == old(tc.debugIndex)
      ensures saved == old(saved)
      ensures outcome == Done <==> 0 <= old(tc.debugIndex) < old(|tc.commands|)
      ensures outcome != Done ==>
        outcome == Fail(TypeError) && tc.commands == old(tc.commands) && Rows(tc.commands) == old(Rows(tc.commands))
      ensures outcome == Done ==>
        var cur, n := old(tc.debugIndex), old(|tc.commands|);
        && Rows(tc.commands) == Insert(old(Rows(tc.commands)), cur, command, target, value)
        && Rows(old(tc.commands)) == Renumber(old(Rows(tc.commands)), old(tc.commands[cur].index))
        && tc.commands[..cur + 1] == old(tc.commands[..cur + 1])
        && tc.commands[cur + 2..n + 1] == old(tc.commands[cur + 1..])
        && fresh(tc.commands[cur + 1])
        && (|tc.commands| == n + 2 ==> fresh(tc.commands[n + 1]))
    {
      outcome := PatchCommands(tc, command, target, value);
    }

    /** `insertCommand` with the evidently intended guard: save the host's
        list if no list is saved yet, keep the saved one otherwise, then
        patch. The saved list aliases the row objects, so it sees their
        renumbering. */
    method InsertCommand(tc: TestCase, command: string, target: Option<string>, value: Option<string>)
      returns (outcome: Outcome)
      requires tc.Valid() && Valid()
      modifies this, tc, tc.commands
      ensures tc.Valid() && Valid() && tc.debugIndex == old(tc.debugIndex)
      ensures saved == if |old(saved)| == 0 then old(tc.commands) else old(saved)
      ensures outcome == Done <==> 0 <= old(tc.debugIndex) < old(|tc.commands|)
      ensures outcome != Done ==>
        outcome == Fail(TypeError) && tc.commands == old(tc.commands) && Rows(tc.commands) == old(Rows(tc.commands))
      ensures outcome == Done ==>
        var cur, n := old(tc.debugIndex), old(|tc.commands|);
        && Rows(tc.commands) == Insert(old(Rows(tc.commands)), cur, command, target, value)
        && Rows(old(tc.commands)) == Renumber(old(Rows(tc.commands)), old(tc.commands[cur].index))
        && tc.commands[..cur + 1] == old(tc.commands[..cur + 1])
        && tc.commands[cur + 2..n + 1] == old(tc.commands[cur + 1..])
        && fresh(tc.commands[cur + 1])
        && (|tc.commands| == n + 2 ==> fresh(tc.commands[n + 1]))
        && (|old(saved)| == 0 ==> Rows(saved) == Renumber(old(Rows(tc.commands)), old(tc.commands[cur].index)))
    {
      if |saved| == 0 {
        saved := tc.commands;
      }
      assert Rows(tc.commands) == old(Rows(tc.commands));
      outcome := PatchCommands(tc, command, target, value);
    }

    /** `removeCommands` as written: it reads the bare identifier
        `testCaseOriginalCommands`, which is not declared, and reading an
        undeclared identifier throws in any mode, so the first read throws
        and nothing changes. */
    method RemoveCommandsAsWritten(tc: TestCase) returns (outcome: Outcome)
      ensures outcome == Fail(ReferenceError)
    {
      outcome := Fail(ReferenceError);
    }

    /** `removeCommands` reading the module's own saved list: the cursor moves
        to the last position of the saved list, the host gets the saved list
        back and the saved list is emptied. */
    method RemoveCommands(tc: TestCase)
      requires Valid()
      modifies this, tc
      ensures Valid() && tc.Valid()
      ensures tc.debugIndex == |old(saved)| - 1
      ensures tc.commands == old(saved) && Rows(tc.commands) == old(Rows(saved))
      ensures saved == []
    {
      tc.debugIndex := |saved| - 1;
      var resetCommands := saved;
      saved := [];
      tc.SetCommands(resetCommands);
    }
  }
}
