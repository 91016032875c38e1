/** Classification of one input line into a command. The tests run in a fixed
    order: the exact word "look", then a "go " or "door" prefix, then a
    "take " prefix, then a "kill " prefix; any other line is unrecognised.
    Nothing is trimmed or case-folded. */
module Commands {

  datatype Command =
    | Look
    | Go(direction: string)
    | Take(objectId: string)
    | Kill(enemyId: string)
    | Unrecognised

  /** `s` begins with `prefix` (the code's `command.find(prefix) == 0`). */
  predicate StartsWith(s: string, prefix: string) {
    |prefix| <= |s| && s[..|prefix|] == prefix
  }

  /** The command a line denotes. A "door…" line is a move whose direction is
      the whole line; the other prefixes are cut off their argument. Read
      backwards, a recognised command determines its line: the keyword
      followed by the argument, except that a "door…" move is the line itself. */
  function Parse(line: string): (c: Command)
    ensures c == Look <==> line == "look"
    ensures StartsWith(line, "door") ==> c == Go(line)
    ensures c.Go? ==> line == "go " + c.direction || (StartsWith(line, "door") && c.direction == line)
    ensures c.Take? ==> line == "take " + c.objectId
    ensures c.Kill? ==> line == "kill " + c.enemyId
    ensures c.Unrecognised? <==>
      && line != "look"
      && !StartsWith(line, "go ") && !StartsWith(line, "door")
      && !StartsWith(line, "take ") && !StartsWith(line, "kill ")
  {
    if line == "look" then
      assert !StartsWith(line, "door") by { assert line[..4][0] == 'l'; }
      Look
    else if StartsWith(line, "go ") then
      GoIsNotDoor(line);
      assert line == line[..3] + line[3..];
      Go(line[3..])
    else if StartsWith(line, "door") then Go(line)
    else if StartsWith(line, "take ") then
      assert line == line[..5] + line[5..];
      Take(line[5..])
    else if StartsWith(line, "kill ") then
      assert line == line[..5] + line[5..];
      Kill(line[5..])
    else Unrecognised
  }

  /** No line carries both the "go " and the "door" prefix. */
  lemma GoIsNotDoor(line: string)
    requires StartsWith(line, "go ")
    ensures !StartsWith(line, "door")
  {
    assert line[0] == line[..3][0] == 'g';
    if |line| >= 4 {
      assert line[..4][0] == line[0];
    }
  }

  /** The canonical line that spells a recognised command. */
  function Render(c: Command): string
    requires !c.Unrecognised?
  {
    match c
    case Look => "look"
    case Go(d) => "go " + d
    case Take(id) => "take " + id
    case Kill(id) => "kill " + id
  }

  lemma PrefixedLine(prefix: string, arg: string)
    ensures StartsWith(prefix + arg, prefix)
    ensures (prefix + arg)[|prefix|..] == arg
  {
  }

  /** Parsing the canonical spelling of a command gives the command back. */
  lemma ParseRender(c: Command)
    requires !c.Unrecognised?
    ensures Parse(Render(c)) == c
  {
    match c
    case Look =>
    case Go(d) =>
      PrefixedLine("go ", d);
      assert Render(c)[0] == 'g';
    case Take(id) =>
      PrefixedLine("take ", id);
      var line := Render(c);
      assert line[0] == 't';
      assert !StartsWith(line, "go ") by { assert line[..3][0] == 't'; }
      assert !StartsWith(line, "door") by { assert |line| < 4 || line[..4][0] == 't'; }
    case Kill(id) =>
      PrefixedLine("kill ", id);
      var line := Render(c);
      assert line[0] == 'k';
      assert !StartsWith(line, "go ") by { assert line[..3][0] == 'k'; }
      assert !StartsWith(line, "door") by { assert |line| < 4 || line[..4][0] == 'k'; }
      assert !StartsWith(line, "take ") by { assert |line| < 5 || line[..5][0] == 'k'; }
  }

  /** Every recognised line other than a "door…" move is the canonical
      spelling of its command: the argument is the rest of the line after the
      keyword and nothing is lost. A "door…" line is the one alias. */
  lemma RenderParse(line: string)
    requires !Parse(line).Unrecognised?
    requires !StartsWith(line, "door")
    ensures Render(Parse(line)) == line
  {
  }
}
