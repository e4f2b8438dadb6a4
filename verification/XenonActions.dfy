/** The actions of Xenon's Service.Action. */
module XenonActions {
  datatype Action = GET | POST | PATCH | PUT | DELETE | OPTIONS

  const ALL_ACTIONS: set<Action> := {GET, POST, PATCH, PUT, DELETE, OPTIONS}
}
