/** A user-defined console command attached to a server profile. */
module CustomCommand {
  import opened Numbers

  /** Whom a command is aimed at; the enum's values are 0 and 1. */
  datatype CommandTarget = Server | Player

  function TargetValue(t: CommandTarget): (v: int)
    ensures v == 0 <==> t == Server
    ensures v == 1 <==> t == Player
  {
    match t
    case Server => 0
    case Player => 1
  }

  const DefaultCategory: string := "Default"

  datatype CustomCommand = CustomCommand(
    id: Guid,
    name: string,
    description: string,
    command: string,
    requiresPlayerName: bool,
    category: string,
    target: CommandTarget,
    serverProfileId: Guid)

  /** `new CustomCommand()`, with `id` standing for the fresh Guid: empty
      texts, category "Default", aimed at the server, and no server
      profile (`Guid.Empty`). */
  function NewCommand(id: Guid): (c: CustomCommand)
    ensures c.id == id && c.serverProfileId == EmptyGuid
    ensures c.name == "" && c.description == "" && c.command == ""
    ensures !c.requiresPlayerName && c.category == "Default" && c.target == Server
  {
    CustomCommand(id, "", "", "", false, DefaultCategory, Server, EmptyGuid)
  }

  /** The six-argument constructor: the defaults of `NewCommand` with the
      given name, description, command text, flag, category and target. */
  function MakeCommand(
    id: Guid, name: string, description: string, command: string,
    requiresPlayerName: bool, category: string, target: CommandTarget): (c: CustomCommand)
    ensures c == NewCommand(id).(name := name, description := description, command := command,
                                 requiresPlayerName := requiresPlayerName, category := category,
                                 target := target)
    ensures c.serverProfileId == EmptyGuid
  {
    CustomCommand(id, name, description, command, requiresPlayerName, category, target, EmptyGuid)
  }

  /** The six-argument constructor called with only the three texts: its
      default parameters give exactly the field defaults. */
  lemma ShortConstructorDefaults(id: Guid, name: string, description: string, command: string)
    ensures MakeCommand(id, name, description, command, false, DefaultCategory, Server)
         == NewCommand(id).(name := name, description := description, command := command)
  {
  }

  /** The eight-argument constructor stores every field, so any command
      can be rebuilt from its fields. */
  function MakeFullCommand(
    id: Guid, name: string, description: string, command: string,
    requiresPlayerName: bool, category: string, target: CommandTarget,
    serverProfileId: Guid): (c: CustomCommand)
    ensures c.id == id && c.serverProfileId == serverProfileId
    ensures c == MakeCommand(id, name, description, command, requiresPlayerName, category, target)
                 .(serverProfileId := serverProfileId)
  {
    CustomCommand(id, name, description, command, requiresPlayerName, category, target, serverProfileId)
  }
}

/** The orders the command queries sort by: `Target`, then `Category`, then
    `Name`, each ascending, strings compared by code point (SQLite's
    default BINARY collation). */
module CommandOrder {
  import opened Text
  import opened CustomCommand

  predicate LexLt(a: string, b: string) {
    LexLe(a, b) && a != b
  }

  /** `ThenBy(Category).ThenBy(Name)`. */
  predicate CategoryNameLe(a: CustomCommand, b: CustomCommand) {
    LexLt(a.category, b.category) || (a.category == b.category && LexLe(a.name, b.name))
  }

  /** `OrderBy(Target).ThenBy(Category).ThenBy(Name)`. */
  predicate KeyLe(a: CustomCommand, b: CustomCommand) {
    TargetValue(a.target) < TargetValue(b.target)
    || (a.target == b.target && CategoryNameLe(a, b))
  }

  /** Among commands with the same target the full order is the
      category-name order. */
  lemma SameTargetOrder(a: CustomCommand, b: CustomCommand)
    requires a.target == b.target
    ensures KeyLe(a, b) <==> CategoryNameLe(a, b)
  {
  }

  lemma KeyLeTotal(a: CustomCommand, b: CustomCommand)
    ensures KeyLe(a, b) || KeyLe(b, a)
  {
    LexLeTotal(a.category, b.category);
    LexLeTotal(a.name, b.name);
  }

  lemma LexLtTransitive(a: string, b: string, c: string)
    requires LexLe(a, b) && LexLe(b, c) && (LexLt(a, b) || LexLt(b, c))
    ensures LexLt(a, c)
  {
    LexLeTransitive(a, b, c);
    if a == c {
      LexLeAntisymmetric(a, b);
    }
  }

  lemma CategoryNameLeTransitive(a: CustomCommand, b: CustomCommand, c: CustomCommand)
    requires CategoryNameLe(a, b) && CategoryNameLe(b, c)
    ensures CategoryNameLe(a, c)
  {
    if a.category == b.category && b.category == c.category {
      LexLeTransitive(a.name, b.name, c.name);
    } else {
      LexLeReflexive(b.category);
      LexLtTransitive(a.category, b.category, c.category);
    }
  }

  lemma KeyLeTransitive(a: CustomCommand, b: CustomCommand, c: CustomCommand)
    requires KeyLe(a, b) && KeyLe(b, c)
    ensures KeyLe(a, c)
  {
    if a.target == b.target && b.target == c.target {
      CategoryNameLeTransitive(a, b, c);
    }
  }

  predicate SortedByKey(s: seq<CustomCommand>) {
    forall i, j :: 0 <= i < j < |s| ==> KeyLe(s[i], s[j])
  }

  predicate SortedByCategoryName(s: seq<CustomCommand>) {
    forall i, j :: 0 <= i < j < |s| ==> CategoryNameLe(s[i], s[j])
  }

  /** Prepending a lower bound of a sorted sequence keeps it sorted. */
  lemma PrependLowerBound(x: CustomCommand, t: seq<CustomCommand>)
    requires SortedByKey(t)
    requires forall y :: y in multiset(t) ==> KeyLe(x, y)
    ensures SortedByKey([x] + t)
  {
    var r := [x] + t;
    forall i, j | 0 <= i < j < |r|
      ensures KeyLe(r[i], r[j])
    {
      if i == 0 {
        assert r[j] == t[j - 1] && t[j - 1] in multiset(t);
      } else {
        assert r[i] == t[i - 1] && r[j] == t[j - 1];
      }
    }
  }

  /** One insertion step: `c` goes before the first element it is not
      above. */
  function Insert(c: CustomCommand, s: seq<CustomCommand>): (r: seq<CustomCommand>)
    requires SortedByKey(s)
    ensures SortedByKey(r)
    ensures multiset(r) == multiset(s) + multiset{c}
    decreases |s|
  {
    if s == [] then [c]
    else if KeyLe(c, s[0]) then
      forall y | y in multiset(s)
        ensures KeyLe(c, y)
      {
        var k :| 0 <= k < |s| && s[k] == y;
        if k > 0 {
          KeyLeTransitive(c, s[0], y);
        }
      }
      PrependLowerBound(c, s);
      [c] + s
    else
      var t := Insert(c, s[1..]);
      KeyLeTotal(c, s[0]);
      assert s == [s[0]] + s[1..];
      forall y | y in multiset(t)
        ensures KeyLe(s[0], y)
      {
        if y != c {
          assert y in multiset(s[1..]);
          var k :| 0 <= k < |s[1..]| && s[1..][k] == y;
          assert s[k + 1] == y;
        }
      }
      PrependLowerBound(s[0], t);
      [s[0]] + t
  }

  /** A sort by `KeyLe`: a sorted permutation of its input. The order
      among commands with equal keys is not stated. */
  function Sort(s: seq<CustomCommand>): (r: seq<CustomCommand>)
    ensures SortedByKey(r)
    ensures multiset(r) == multiset(s)
    decreases |s|
  {
    if s == [] then []
    else
      assert s == [s[0]] + s[1..];
      Insert(s[0], Sort(s[1..]))
  }

  /** A sequence of commands aimed at one target, sorted by the full key,
      is sorted by category and name. */
  lemma SortedSameTarget(s: seq<CustomCommand>, t: CommandTarget)
    requires SortedByKey(s)
    requires forall i :: 0 <= i < |s| ==> s[i].target == t
    ensures SortedByCategoryName(s)
  {
    forall i, j | 0 <= i < j < |s|
      ensures CategoryNameLe(s[i], s[j])
    {
      SameTargetOrder(s[i], s[j]);
    }
  }
}
