/** Migration 092: the session user, the policies it installs, and which rows they admit. */
module RowSecurity {
  import opened Options

  // ----- the session user -----

  type Uuid = int

  type Id = int

  /** `app.current_user_id` as the session has it, and how text reads as a uuid. */
  datatype Session = Session(setting: Option<string>, parse: string -> Option<Uuid>, roles: map<Uuid, string>)

  /** `app_current_user_id()`; a failing cast is caught and gives NULL. */
  function CurrentUser(s: Session): (user: Option<Uuid>) {
    match s.setting
    case None => None
    case Some(raw) => if raw == "" then None else s.parse(raw)
  }

  predicate IsAdmin(s: Session) {
    var user := CurrentUser(s);
    user.Some? && user.value in s.roles && s.roles[user.value] == "admin"
  }

  // ----- policies -----

  /** The five protected tables, and all others by name. */
  datatype Table = Contacts | Accounts | Deals | Leads | Activities | Other(name: string)

  /** The columns that hold keys of other rows, and all others by name. */
  datatype Column =
    | ContactId | AccountId | DealId | ParentAccountId | SourceLeadId
    | ConvertedContactId | ConvertedAccountId | ConvertedDealId
    | Email | UpdatedAt | Plain(name: string)

  /** A row: its owner, the keys it holds and its other values; a column that is NULL is left out. */
  datatype Row = Row(owner: Option<Uuid>, refs: map<Column, Id>, values: map<Column, string>)

  datatype Command = ForSelect | ForUpdate | ForDelete

  /** `owner_id = app_current_user_id()`, or the user's role is `admin`. */
  datatype Using = OwnerIsUser | UserIsAdmin

  datatype Policy = Policy(command: Command, using: Using)

  datatype TableSecurity = TableSecurity(enabled: bool, forced: bool, policies: seq<Policy>)

  /** A comparison with NULL does not pass. */
  predicate Passes(using: Using, s: Session, row: Row) {
    match using
    case OwnerIsUser => row.owner.Some? && row.owner == CurrentUser(s)
    case UserIsAdmin => IsAdmin(s)
  }

  /** Permissive policies are OR-combined; without one for the command nothing passes. */
  predicate Admits(security: TableSecurity, command: Command, s: Session, row: Row) {
    security.enabled ==>
      exists k :: 0 <= k < |security.policies| && security.policies[k].command == command
                  && Passes(security.policies[k].using, s, row)
  }

  const RLS_TABLES := [Contacts, Accounts, Deals, Leads, Activities]

  const POLICIES := [
    Policy(ForSelect, OwnerIsUser), Policy(ForSelect, UserIsAdmin),
    Policy(ForUpdate, OwnerIsUser), Policy(ForUpdate, UserIsAdmin),
    Policy(ForDelete, OwnerIsUser), Policy(ForDelete, UserIsAdmin)
  ]

  lemma PolicySteps()
    ensures POLICIES[..1] == [] + [Policy(ForSelect, OwnerIsUser)]
    ensures POLICIES[..2] == POLICIES[..1] + [Policy(ForSelect, UserIsAdmin)]
    ensures POLICIES[..3] == POLICIES[..2] + [Policy(ForUpdate, OwnerIsUser)]
    ensures POLICIES[..4] == POLICIES[..3] + [Policy(ForUpdate, UserIsAdmin)]
    ensures POLICIES[..5] == POLICIES[..4] + [Policy(ForDelete, OwnerIsUser)]
    ensures POLICIES == POLICIES[..5] + [Policy(ForDelete, UserIsAdmin)]
  {
  }

  ghost predicate HasPolicies(security: map<Table, TableSecurity>, policies: seq<Policy>) {
    forall k :: 0 <= k < |RLS_TABLES| ==>
      RLS_TABLES[k] in security && security[RLS_TABLES[k]] == TableSecurity(true, true, policies)
  }

  class Catalog {
    var security: map<Table, TableSecurity>

    constructor (tables: set<Table>)
      ensures security == map t | t in tables :: TableSecurity(false, false, [])
    {
      security := map t | t in tables :: TableSecurity(false, false, []);
    }

    method EnableRowSecurity()
      requires forall k :: 0 <= k < |RLS_TABLES| ==>
                 RLS_TABLES[k] in security && security[RLS_TABLES[k]].policies == []
      modifies this
      ensures HasPolicies(security, [])
      ensures security.Keys == old(security).Keys
      ensures forall t :: t in security && t !in RLS_TABLES ==> security[t] == old(security)[t]
    {
      for i := 0 to |RLS_TABLES|
        invariant security.Keys == old(security).Keys
        invariant forall t :: t in security && t !in RLS_TABLES[..i] ==> security[t] == old(security)[t]
        invariant forall k :: 0 <= k < i ==> security[RLS_TABLES[k]] == TableSecurity(true, true, [])
      {
        security := security[RLS_TABLES[i] := security[RLS_TABLES[i]].(enabled := true)];
        security := security[RLS_TABLES[i] := security[RLS_TABLES[i]].(forced := true)];
      }
    }

    /** One of the loops that create a policy on every table. */
    method CreatePolicy(policy: Policy, ghost before: seq<Policy>)
      requires HasPolicies(security, before)
      modifies this
      ensures HasPolicies(security, before + [policy])
      ensures security.Keys == old(security).Keys
      ensures forall t :: t in security && t !in RLS_TABLES ==> security[t] == old(security)[t]
    {
      for i := 0 to |RLS_TABLES|
        invariant security.Keys == old(security).Keys
        invariant forall t :: t in security && t !in RLS_TABLES[..i] ==> security[t] == old(security)[t]
        invariant forall k :: 0 <= k < i ==> security[RLS_TABLES[k]] == TableSecurity(true, true, before + [policy])
      {
        var t := RLS_TABLES[i];
        security := security[t := security[t].(policies := security[t].policies + [policy])];
      }
    }

    /** The migration: each of the five tables ends with the six policies, and no other is touched. */
    method Up092()
      requires forall k :: 0 <= k < |RLS_TABLES| ==>
                 RLS_TABLES[k] in security && security[RLS_TABLES[k]].policies == []
      modifies this
      ensures HasPolicies(security, POLICIES)
      ensures security.Keys == old(security).Keys
      ensures forall t :: t in security && t !in RLS_TABLES ==> security[t] == old(security)[t]
    {
      PolicySteps();
      hide HasPolicies;
      EnableRowSecurity();
      CreatePolicy(Policy(ForSelect, OwnerIsUser), []);
      CreatePolicy(Policy(ForSelect, UserIsAdmin), POLICIES[..1]);
      CreatePolicy(Policy(ForUpdate, OwnerIsUser), POLICIES[..2]);
      CreatePolicy(Policy(ForUpdate, UserIsAdmin), POLICIES[..3]);
      CreatePolicy(Policy(ForDelete, OwnerIsUser), POLICIES[..4]);
      CreatePolicy(Policy(ForDelete, UserIsAdmin), POLICIES[..5]);
    }
  }

  // ----- what the policies come to -----

  /** What the installed policies let a session do to a row. */
  type Guard = (Table, Command, Row) -> bool

  function GuardOf(security: map<Table, TableSecurity>, s: Session): Guard {
    (table, command, row) => table in security && Admits(security[table], command, s, row)
  }

  /** Whose rows a session works on: its user's own, or everybody's for an admin. */
  type Ownership = Option<Uuid> -> bool

  predicate IsOf(s: Session, owner: Option<Uuid>) {
    IsAdmin(s) || (owner.Some? && owner == CurrentUser(s))
  }

  function Mine(s: Session): Ownership { owner => IsOf(s, owner) }

  /** Select, update and delete all pass for these rows and for no others. */
  ghost predicate GuardsBy(guard: Guard, mine: Ownership) {
    forall t, c, r :: t in RLS_TABLES ==> guard(t, c, r) == mine(r.owner)
  }

  lemma PoliciesAdmit(security: TableSecurity, command: Command, s: Session, row: Row)
    requires security == TableSecurity(true, true, POLICIES)
    ensures Admits(security, command, s, row) <==> IsOf(s, row.owner)
  {
    var ps := security.policies;
    match command
    case ForSelect => assert ps[0].command == command && ps[1].command == command;
    case ForUpdate => assert ps[2].command == command && ps[3].command == command;
    case ForDelete => assert ps[4].command == command && ps[5].command == command;
  }

  lemma MigratedGuard(security: map<Table, TableSecurity>, s: Session)
    requires HasPolicies(security, POLICIES)
    ensures GuardsBy(GuardOf(security, s), Mine(s))
  {
    forall t, c, r | t in RLS_TABLES ensures GuardOf(security, s)(t, c, r) == Mine(s)(r.owner) {
      var k :| 0 <= k < |RLS_TABLES| && RLS_TABLES[k] == t;
      PoliciesAdmit(security[t], c, s, r);
    }
  }
}
