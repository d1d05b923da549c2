/** The `/help` command: the role-level table, the minimum-bar permission
    test, the three role buckets of the listing, and the `/help <name>` lookup. */
module Help {
  import opened Wrappers
  import opened Strings
  import opened Commands

  const NOT_FOUND_TEXT := "It seems that commands doesn't exist."

  /** The descriptor set in Help's constructor. */
  const HELP_OPT := CommandOpt(
    ["help", "?"], "Shows available commands separated by role", 5, 1,
    "`oBasic", "/help", ["/help"], [Basic, Supporter, Developer])

  /** `getRoleLevel`: BASIC, SUPPORTER and DEVELOPER rank 1, 2 and 3; every
      other role ranks 0. */
  function RoleLevel(role: Role): (level: nat)
    ensures level <= 3
    ensures level == 0 <==> role.Unknown?
    ensures role == Basic <==> level == 1
    ensures role == Supporter <==> level == 2
    ensures role == Developer <==> level == 3
  {
    match role
    case Basic => 1
    case Supporter => 2
    case Developer => 3
    case Unknown(_) => 0
  }

  /** `permission.some(role => getRoleLevel(role) <= userRoleLevel)`:
      the permission list is a minimum bar, not an allow-list. */
  function HasPermission(permission: seq<Role>, level: nat): (b: bool)
    ensures b <==> exists i :: 0 <= i < |permission| && RoleLevel(permission[i]) <= level
  {
    if permission == [] then false
    else RoleLevel(permission[0]) <= level || HasPermission(permission[1..], level)
  }

  lemma EmptyPermissionNeverListed(level: nat)
    ensures !HasPermission([], level)
  {
  }

  /** An unknown role ranks 0, so listing one opens the command to everyone. */
  lemma UnknownRoleOpensToAll(permission: seq<Role>, name: PlainName, level: nat)
    requires Unknown(name) in permission
    ensures HasPermission(permission, level)
  {
    var i :| 0 <= i < |permission| && permission[i] == Unknown(name);
  }

  /** A user of a higher level sees everything a lower-level user sees. */
  lemma PermissionMonotone(permission: seq<Role>, lo: nat, hi: nat)
    requires lo <= hi && HasPermission(permission, lo)
    ensures HasPermission(permission, hi)
  {
    var i :| 0 <= i < |permission| && RoleLevel(permission[i]) <= lo;
  }

  /** The bucket of a listed command: BASIC first, then SUPPORTER, then
      DEVELOPER; a command naming none of the three goes nowhere. */
  function BucketOf(permission: seq<Role>): (s: Option<Section>)
    ensures s == Some(BasicSection) <==> Basic in permission
    ensures s == Some(SupporterSection) <==> Basic !in permission && Supporter in permission
    ensures s == Some(DeveloperSection) <==>
              Basic !in permission && Supporter !in permission && Developer in permission
    ensures s == None <==>
              Basic !in permission && Supporter !in permission && Developer !in permission
  {
    if Basic in permission then Some(BasicSection)
    else if Supporter in permission then Some(SupporterSection)
    else if Developer in permission then Some(DeveloperSection)
    else None
  }

  predicate InBucket(opt: CommandOpt, level: nat, section: Section)
  {
    HasPermission(opt.permission, level) && BucketOf(opt.permission) == Some(section)
  }

  /** The names pushed into the `section` bucket by the `forEach` over
      `cmds`, in visiting order and before sorting. */
  function Bucket(cmds: seq<CommandOpt>, level: nat, section: Section): seq<string>
  {
    if cmds == [] then []
    else
      var rest := Bucket(cmds[..|cmds| - 1], level, section);
      var last := cmds[|cmds| - 1];
      if InBucket(last, level, section) then rest + [last.command[0]] else rest
  }

  lemma BucketStep(cmds: seq<CommandOpt>, i: nat, level: nat, section: Section)
    requires i < |cmds|
    ensures Bucket(cmds[..i + 1], level, section) ==
              Bucket(cmds[..i], level, section) + (if InBucket(cmds[i], level, section) then [cmds[i].command[0]] else [])
  {
    assert cmds[..i + 1][..i] == cmds[..i];
  }

  /** A name is in a bucket exactly when some command of that bucket has it
      as its first alias. */
  lemma {:induction false} BucketMembers(cmds: seq<CommandOpt>, level: nat, section: Section, name: string)
    ensures name in Bucket(cmds, level, section) <==>
              exists i :: 0 <= i < |cmds| && InBucket(cmds[i], level, section) && cmds[i].command[0] == name
  {
    if cmds != [] {
      var init := cmds[..|cmds| - 1];
      BucketMembers(init, level, section, name);
      assert forall i :: 0 <= i < |init| ==> init[i] == cmds[i];
      if name in Bucket(cmds, level, section) && name !in Bucket(init, level, section) {
        assert InBucket(cmds[|cmds| - 1], level, section);
      }
    }
  }

  /** How many visited commands land in some bucket. */
  function BucketedCount(cmds: seq<CommandOpt>, level: nat): nat
  {
    if cmds == [] then 0
    else
      var last := cmds[|cmds| - 1];
      BucketedCount(cmds[..|cmds| - 1], level) +
        (if HasPermission(last.permission, level) && BucketOf(last.permission).Some? then 1 else 0)
  }

  /** Every listed command with a bucket lands in exactly one of the three. */
  lemma {:induction false} BucketsPartition(cmds: seq<CommandOpt>, level: nat)
    ensures |Bucket(cmds, level, BasicSection)| + |Bucket(cmds, level, SupporterSection)|
            + |Bucket(cmds, level, DeveloperSection)| == BucketedCount(cmds, level)
  {
    if cmds != [] {
      BucketsPartition(cmds[..|cmds| - 1], level);
    }
  }

  /** A user of a higher level gets every name a lower-level user gets, in
      every bucket, as often. */
  lemma {:induction false} BucketMonotone(cmds: seq<CommandOpt>, lo: nat, hi: nat, section: Section)
    requires lo <= hi
    ensures multiset(Bucket(cmds, lo, section)) <= multiset(Bucket(cmds, hi, section))
  {
    if cmds != [] {
      var last := cmds[|cmds| - 1];
      BucketMonotone(cmds[..|cmds| - 1], lo, hi, section);
      if HasPermission(last.permission, lo) {
        PermissionMonotone(last.permission, lo, hi);
      }
    }
  }

  /** The console messages of the listing, from the three sorted buckets. */
  function Sections(basic: seq<string>, supporter: seq<string>, developer: seq<string>, level: nat): seq<Message>
  {
    (if |basic| > 0 then [SectionList(BasicSection, basic)] else [])
    + (if level >= 2 && |supporter| > 0 then [SectionList(SupporterSection, supporter)] else [])
    + (if level >= 3 && |developer| > 0 then [SectionList(DeveloperSection, developer)] else [])
  }

  /** The reply of `/help` without arguments to a user of the given level. */
  function Listing(cmds: seq<CommandOpt>, level: nat): seq<Message>
  {
    Sections(Sort(Bucket(cmds, level, BasicSection)),
             Sort(Bucket(cmds, level, SupporterSection)),
             Sort(Bucket(cmds, level, DeveloperSection)), level)
  }

  /** The section messages built from three buckets: each is sent only when
      its bucket is non-empty and the level reaches it, and they go out in
      the order basic, supporter, developer. */
  lemma SectionsSent(basic: seq<string>, supporter: seq<string>, developer: seq<string>, level: nat)
    ensures var msgs := Sections(basic, supporter, developer, level);
      && |msgs| <= 3
      && (SectionList(BasicSection, basic) in msgs <==> |basic| > 0)
      && (SectionList(SupporterSection, supporter) in msgs <==> level >= 2 && |supporter| > 0)
      && (SectionList(DeveloperSection, developer) in msgs <==> level >= 3 && |developer| > 0)
      && (forall k :: 0 <= k < |msgs| ==>
            msgs[k] in [SectionList(BasicSection, basic), SectionList(SupporterSection, supporter),
                        SectionList(DeveloperSection, developer)])
      && (forall k, l :: 0 <= k < l < |msgs| ==> SectionRank(msgs[k].section) < SectionRank(msgs[l].section))
  {
  }

  /** What the listing sends: the basic section iff its bucket is non-empty,
      the supporter section iff the level is at least 2 and its bucket is
      non-empty, the developer section iff the level is at least 3 and its
      bucket is non-empty; each holds its bucket sorted. */
  lemma ListingSections(cmds: seq<CommandOpt>, level: nat)
    ensures |Listing(cmds, level)| <= 3
    ensures (SectionList(BasicSection, Sort(Bucket(cmds, level, BasicSection))) in Listing(cmds, level))
            <==> |Bucket(cmds, level, BasicSection)| > 0
    ensures (SectionList(SupporterSection, Sort(Bucket(cmds, level, SupporterSection))) in Listing(cmds, level))
            <==> level >= 2 && |Bucket(cmds, level, SupporterSection)| > 0
    ensures (SectionList(DeveloperSection, Sort(Bucket(cmds, level, DeveloperSection))) in Listing(cmds, level))
            <==> level >= 3 && |Bucket(cmds, level, DeveloperSection)| > 0
    ensures forall m :: m in Listing(cmds, level) ==>
              m in [SectionList(BasicSection, Sort(Bucket(cmds, level, BasicSection))),
                    SectionList(SupporterSection, Sort(Bucket(cmds, level, SupporterSection))),
                    SectionList(DeveloperSection, Sort(Bucket(cmds, level, DeveloperSection)))]
  {
    var b, s, d := Bucket(cmds, level, BasicSection), Bucket(cmds, level, SupporterSection),
                   Bucket(cmds, level, DeveloperSection);
    SortKeepsLength(b);
    SortKeepsLength(s);
    SortKeepsLength(d);
    SectionsSent(Sort(b), Sort(s), Sort(d), level);
  }

  function SectionRank(s: Section): nat
  {
    match s
    case BasicSection => 0
    case SupporterSection => 1
    case DeveloperSection => 2
  }

  lemma SortKeepsLength(s: seq<string>)
    ensures |Sort(s)| == |s|
  {
    assert |multiset(Sort(s))| == |multiset(s)|;
  }

  /** Users of level 1 or below receive at most the basic section. */
  lemma LowLevelSeesOnlyBasic(cmds: seq<CommandOpt>, level: nat)
    requires level <= 1
    ensures forall m :: m in Listing(cmds, level) ==> m == SectionList(BasicSection, Sort(Bucket(cmds, level, BasicSection)))
  {
  }

  /** `CommandMap[key]`: the descriptor of the first entry under `key`. */
  function Lookup(registry: seq<Entry>, key: string): (r: Option<CommandOpt>)
    ensures r == None <==> forall i :: 0 <= i < |registry| ==> registry[i].alias != key
    ensures r != None ==>
              exists i :: 0 <= i < |registry| && registry[i].alias == key && registry[i].opt == r.value
                          && forall j :: 0 <= j < i ==> registry[j].alias != key
  {
    if registry == [] then None
    else if registry[0].alias == key then Some(registry[0].opt)
    else
      var r := Lookup(registry[1..], key);
      assert forall i :: 0 < i < |registry| ==> registry[i] == registry[1..][i - 1];
      r
  }

  /** On a table with distinct keys, `CommandMap[key]` is the descriptor of
      the one entry under `key`. */
  lemma {:induction false} LookupDistinct(registry: seq<Entry>, key: string, opt: CommandOpt)
    requires DistinctAliases(registry)
    ensures Lookup(registry, key) == Some(opt) <==> Entry(key, opt) in registry
  {
    if Entry(key, opt) in registry {
      var i :| 0 <= i < |registry| && registry[i] == Entry(key, opt);
      var r := Lookup(registry, key);
      var j :| 0 <= j < |registry| && registry[j].alias == key && registry[j].opt == r.value
                && forall l :: 0 <= l < j ==> registry[l].alias != key;
      assert i == j;
    }
  }

  /** The reply of `/help <arg>`: one message, either the "doesn't exist"
      notice or the detail dialog of the command the lower-cased argument names. */
  function DetailReply(registry: seq<Entry>, arg: string): (msgs: seq<Message>)
    ensures |msgs| == 1
    ensures msgs[0] == ConsoleMessage(NOT_FOUND_TEXT) <==> Lookup(registry, Lower(arg)) == None
    ensures msgs[0].CommandDetail? <==> Lookup(registry, Lower(arg)) != None
    ensures msgs[0].CommandDetail? ==>
              msgs[0].name == Lower(arg) && Some(msgs[0].opt) == Lookup(registry, Lower(arg))
  {
    var name := Lower(arg);
    match Lookup(registry, name)
    case None => [ConsoleMessage(NOT_FOUND_TEXT)]
    case Some(opt) => [CommandDetail(name, opt)]
  }

  /** Help's `execute`: with an argument, the lookup reply; otherwise the
      three buckets are filled by one pass over `Object.values(CommandMap)`,
      sorted, and sent section by section. */
  method Execute(registry: seq<Entry>, role: Role, args: seq<string>) returns (msgs: seq<Message>)
    ensures |args| > 0 ==> msgs == DetailReply(registry, args[0])
    ensures |args| == 0 ==> msgs == Listing(Values(registry), RoleLevel(role))
  {
    if |args| > 0 {
      msgs := DetailReply(registry, args[0]);
    } else {
      msgs := ListCommands(Values(registry), RoleLevel(role));
    }
  }

  /** The branch without arguments: the `forEach` filling the buckets, the
      three sorts, and the section messages. */
  method ListCommands(cmds: seq<CommandOpt>, level: nat) returns (msgs: seq<Message>)
    ensures msgs == Listing(cmds, level)
  {
    var basic, supporter, developer := [], [], [];
    for i := 0 to |cmds|
      invariant basic == Bucket(cmds[..i], level, BasicSection)
      invariant supporter == Bucket(cmds[..i], level, SupporterSection)
      invariant developer == Bucket(cmds[..i], level, DeveloperSection)
    {
      BucketStep(cmds, i, level, BasicSection);
      BucketStep(cmds, i, level, SupporterSection);
      BucketStep(cmds, i, level, DeveloperSection);
      var cmd := cmds[i];
      if HasPermission(cmd.permission, level) {
        var name := cmd.command[0];
        if Basic in cmd.permission {
          basic := basic + [name];
        } else if Supporter in cmd.permission {
          supporter := supporter + [name];
        } else if Developer in cmd.permission {
          developer := developer + [name];
        }
      }
    }
    assert cmds[..|cmds|] == cmds;
    basic, supporter, developer := Sort(basic), Sort(supporter), Sort(developer);
    msgs := SendSections(basic, supporter, developer, level);
  }

  /** Sends the section messages one after another. */
  method SendSections(basic: seq<string>, supporter: seq<string>, developer: seq<string>, level: nat)
    returns (msgs: seq<Message>)
    ensures msgs == Sections(basic, supporter, developer, level)
  {
    msgs := [];
    if |basic| > 0 {
      msgs := msgs + [SectionList(BasicSection, basic)];
    }
    if level >= 2 && |supporter| > 0 {
      msgs := msgs + [SectionList(SupporterSection, supporter)];
    }
    if level >= 3 && |developer| > 0 {
      msgs := msgs + [SectionList(DeveloperSection, developer)];
    }
  }

  /** Help names BASIC, so it is always in the basic bucket, and every user
      with a known role sees it. */
  lemma HelpIsBasic(level: nat)
    ensures BucketOf(HELP_OPT.permission) == Some(BasicSection)
    ensures HasPermission(HELP_OPT.permission, level) <==> level >= 1
  {
    assert RoleLevel(HELP_OPT.permission[0]) == 1;
  }
}
