/** The objects of a deployment and the table of what is deployed. */
module DeployTypes {
  import opened OrderedJson
  import opened Wrappers

  /** A JSON object as it is compared with `==`: the order of its fields does not count. */
  type Content = map<string, Value>

  datatype Kind = Host | Root | Collection | Delta | Sum | TypeKind | Trigger | Hostvar | Docker | Monitor

  /** The fields keep their order, which the sorting of triggers looks at. */
  datatype TriggerData = TriggerData(typeId: int, script: string, fields: Fields, title: string) {
    function Content(): Content {
      MeaningOf(fields)
    }
  }

  datatype Action = Add | Modify | Remove | Fire

  datatype ObjectStatus = Normal | Deploying | Success | Failure

  datatype DeployObject = DeployObject(
    host: int, title: string, name: string, enabled: bool, status: ObjectStatus, action: Action,
    script: string, prevScript: Option<string>, nextContent: Option<Content>, prevContent: Option<Content>,
    id: Option<int>, typeId: int, typeName: string, triggers: seq<TriggerData>, deploymentOrder: int)

  /** The JSON kept in a row. */
  datatype DeployContent = DeployContent(
    script: Option<string>, content: Option<Content>, triggers: seq<TriggerData>,
    deploymentOrder: int, typeName: string, objectId: int)

  datatype Row = Row(content: DeployContent, typeId: int, title: string)

  type Table = map<(int, string), Row>

  const PACKAGE_ID: int := 10

  /** The rows of one host, by name. */
  function HostRows(t: Table, host: int): map<string, Row> {
    map k | k in t && k.0 == host :: k.1 := t[k]
  }

  lemma HostRowsHas(t: Table, host: int, name: string)
    ensures name in HostRows(t, host) <==> (host, name) in t
    ensures (host, name) in t ==> HostRows(t, host)[name] == t[(host, name)]
  {
  }

  /** The row that records an object. */
  function RowOf(o: DeployObject): Row
    requires o.nextContent.Some? && o.id.Some?
  {
    Row(DeployContent(Some(o.script), o.nextContent, o.triggers, o.deploymentOrder, o.typeName, o.id.value),
        o.typeId, o.title)
  }

  /** `set_deployment`: replaces the row of an object with content, deletes it otherwise;
      an object with content and without id is an error. */
  function SetDeployment(t: Table, o: DeployObject): Result<Table, ()> {
    match o.nextContent
    case None => Ok(t - {(o.host, o.name)})
    case Some(_) => if o.id.None? then Err(()) else Ok(t[(o.host, o.name) := RowOf(o)])
  }
}
