/** The projects something reaches: all of them, or those named. */
module ProjectScope {

  datatype Scope = Everything | Projects(ids: set<int>)

  predicate Allows(scope: Scope, project: int) {
    scope.Everything? || project in scope.ids
  }
}
