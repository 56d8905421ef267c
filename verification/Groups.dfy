/** What travels between the program and Keycloak (keycloakadmin.Group, User, groupResponse). */
module Groups {
  /** The attribute names the program gives a meaning to, as tags; others keep their text. */
  datatype AttributeName = GroupNameAttribute | ZoneAttribute | AuthorityAttribute | OtherAttribute(text: string)

  type Attributes = map<AttributeName, seq<string>>

  datatype User = User(id: string, username: string)

  datatype Group = Group(id: string, path: string, name: string, attributes: Attributes)

  /** One group as Keycloak lists it: with its children inline, or with their number, or both. */
  datatype GroupResponse = GroupResponse(
    group: Group, subGroupCount: int, subGroups: seq<GroupResponse>)
}
