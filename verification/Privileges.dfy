/** Privilege maps and the record kept for one user. */
module Privileges {
  import opened Options

  datatype Value = Flag(on: bool) | Number(n: int) | Models(names: seq<string>)

  type PrivilegeMap = map<string, Value>

  const DEFAULT_PRIVILEGES: PrivilegeMap := map[
    "can_use_agent" := Flag(true),
    "can_use_browser" := Flag(true),
    "can_use_bash" := Flag(false),
    "can_use_documents" := Flag(true),
    "can_use_research" := Flag(true),
    "can_generate_images" := Flag(true),
    "can_manage_memory" := Flag(true),
    "max_messages_per_day" := Number(0),
    "allowed_models" := Models([]),
    "allowed_models_restricted" := Flag(false),
    "block_all_models" := Flag(false)
  ]

  /** Every flag on, except the two that restrict the choice of models. */
  const ADMIN_PRIVILEGES: PrivilegeMap := AllGranted()["allowed_models_restricted" := Flag(false)]["block_all_models" := Flag(false)]

  function AllGranted(): PrivilegeMap {
    map k | k in DEFAULT_PRIVILEGES ::
      match DEFAULT_PRIVILEGES[k]
      case Flag(_) => Flag(true)
      case Number(_) => Number(0)
      case Models(_) => Models([])
  }

  datatype UserRecord = UserRecord(
    passwordHash: string,
    isAdmin: bool,
    privileges: Option<PrivilegeMap>,
    stash: Option<PrivilegeMap>        // "privileges_before_admin"
  )

  /** `{**DEFAULT_PRIVILEGES, **stored}`, an absent map counting as empty. */
  function Merge(stored: Option<PrivilegeMap>): PrivilegeMap {
    if stored.None? then DEFAULT_PRIVILEGES else DEFAULT_PRIVILEGES + stored.value
  }

  /** `stored or DEFAULT_PRIVILEGES`: an empty map is falsy too. */
  function OrDefault(stored: Option<PrivilegeMap>): PrivilegeMap {
    if stored.None? || stored.value == map[] then DEFAULT_PRIVILEGES else stored.value
  }

  /** The privileges a user has. */
  function Effective(r: UserRecord): PrivilegeMap {
    if r.isAdmin then ADMIN_PRIVILEGES else Merge(r.privileges)
  }

  /** Stashing or restoring a map does not change what it grants. */
  lemma MergeOrDefault(stored: Option<PrivilegeMap>)
    ensures OrDefault(stored) != map[] && Merge(Some(OrDefault(stored))) == Merge(stored)
  {
    assert "can_use_agent" in DEFAULT_PRIVILEGES;
    assert DEFAULT_PRIVILEGES + map[] == DEFAULT_PRIVILEGES;
    assert DEFAULT_PRIVILEGES + DEFAULT_PRIVILEGES == DEFAULT_PRIVILEGES;
  }

  lemma MergeAdmin()
    ensures Merge(Some(ADMIN_PRIVILEGES)) == ADMIN_PRIVILEGES
  {
    assert ADMIN_PRIVILEGES.Keys == DEFAULT_PRIVILEGES.Keys;
  }

  /** What a user may do: for an ordinary user every default key, with the stored value where there is one. */
  lemma EffectiveIs(r: UserRecord)
    ensures DEFAULT_PRIVILEGES.Keys <= Effective(r).Keys
    ensures !r.isAdmin ==> forall k :: k in Effective(r) ==>
              if r.privileges.Some? && k in r.privileges.value then Effective(r)[k] == r.privileges.value[k]
              else k in DEFAULT_PRIVILEGES && Effective(r)[k] == DEFAULT_PRIVILEGES[k]
    ensures !r.isAdmin && r.privileges.Some? ==> r.privileges.value.Keys <= Effective(r).Keys
  {
  }

  /** An admin is granted every flag, whatever the record stores, and no limit. */
  lemma AdminIsUnlimited(r: UserRecord)
    requires r.isAdmin
    ensures Effective(r).Keys == DEFAULT_PRIVILEGES.Keys
    ensures forall k :: k in Effective(r) && Effective(r)[k].Flag? ==>
              (Effective(r)[k].on <==> k !in {"allowed_models_restricted", "block_all_models"})
    ensures forall k :: k in Effective(r) && Effective(r)[k].Number? ==> Effective(r)[k].n == 0
    ensures forall k :: k in Effective(r) && Effective(r)[k].Models? ==> Effective(r)[k].names == []
  {
  }
}
