/** The permission table, id to code, as the other services consult it. */
module Permissions {
  import opened Common

  type Table = map<string, string>

  /** permissionsService.findOne over a list of ids: all are found, or the first missing one throws. */
  function CodesFor(perms: Table, ids: seq<string>): (codes: Option<seq<string>>)
    ensures codes.Some? <==> forall id | id in ids :: id in perms
    ensures codes.Some? ==> |codes.value| == |ids| && forall i | 0 <= i < |ids| :: codes.value[i] == perms[ids[i]]
  {
    if ids == [] then Some([])
    else
      var rest := CodesFor(perms, ids[1..]);
      if ids[0] in perms && rest.Some? then Some([perms[ids[0]]] + rest.value) else None
  }

  /** The check both guards make: an empty list asks for nothing, otherwise one code must be held. */
  predicate Satisfies(required: seq<string>, held: seq<string>) {
    |required| == 0 || exists code | code in required :: code in held
  }
}
