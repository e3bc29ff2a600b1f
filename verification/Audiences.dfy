/** Who may be told about a node. */
module Audiences {
  datatype Visibility = Public | Private

  datatype Node = Node(address: string, kind: string, owner: string, visibility: Visibility)

  datatype Viewer = Viewer(owner: string, admin: bool)

  datatype Audience = Everyone | Owner(only: string) {
    predicate Admits(who: Viewer) {
      match this
      case Everyone => true
      case Owner(only) => who.admin || only == who.owner
    }
  }

  function ForNode(node: Node): Audience {
    match node.visibility
    case Public => Everyone
    case Private => Owner(node.owner)
  }
}
