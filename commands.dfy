/** Data shared by the command handlers: roles, the `opt` descriptor every
    command class carries, the alias table, and the messages a handler sends
    to its peer (packet encoding and dialog markup are left abstract). */
module Commands {

  /** `ROLE` of the constants package; any other string is an unknown role. */
  datatype Role = Basic | Supporter | Developer | Unknown(name: PlainName)

  /** Members every plain JavaScript object inherits from `Object.prototype`. */
  const OBJECT_PROTOTYPE_KEYS: set<string> := {
    "constructor", "__proto__", "toString", "toLocaleString", "valueOf", "hasOwnProperty",
    "isPrototypeOf", "propertyIsEnumerable", "__defineGetter__", "__defineSetter__",
    "__lookupGetter__", "__lookupSetter__"}

  /** A role string that a plain object does not answer from its prototype. */
  type PlainName = s: string | s !in OBJECT_PROTOTYPE_KEYS witness ""


  /** A non-empty list of aliases; the first one is the canonical name. */
  type Aliases = s: seq<string> | |s| > 0 witness [""]

  /** The `opt` object set in each command's constructor. */
  datatype CommandOpt = CommandOpt(
    command: Aliases,
    description: string,
    cooldown: nat,
    ratelimit: nat,
    category: string,
    usage: string,
    example: seq<string>,
    permission: seq<Role>)

  /** One key of the alias table `CommandMap` with the descriptor of the class it names. */
  datatype Entry = Entry(alias: string, opt: CommandOpt)

  /** `Object.values(CommandMap)`: one descriptor per alias, in table order,
      so a command with several aliases occurs several times. */
  function Values(registry: seq<Entry>): (r: seq<CommandOpt>)
    ensures |r| == |registry|
    ensures forall i :: 0 <= i < |registry| ==> r[i] == registry[i].opt
  {
    if registry == [] then [] else [registry[0].opt] + Values(registry[1..])
  }

  /** The keys of a JavaScript object are distinct. */
  predicate DistinctAliases(registry: seq<Entry>)
  {
    forall i, j :: 0 <= i < j < |registry| ==> registry[i].alias != registry[j].alias
  }

  /** The sections of the help listing, one console message each. */
  datatype Section = BasicSection | SupporterSection | DeveloperSection

  /** What a handler sends to its peer. */
  datatype Message =
    | ConsoleMessage(text: string)
      /** "<Section> Commands: a, b, c" as a console message */
    | SectionList(section: Section, names: seq<string>)
      /** the detail dialog of `/help <name>` */
    | CommandDetail(name: string, opt: CommandOpt)
      /** a dialog whose end button reports back under `dialogName` */
    | ConfirmDialog(dialogName: string, cancelLabel: string, confirmLabel: string)
}
