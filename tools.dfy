/** The tool interface: every tool declares a name, a description and its
 *  parameters, and turns them into the definition sent to the model. */
module Tools {

  datatype ToolParameter = ToolParameter(name: string, paramType: string, description: string, required: bool)

  /** `ToolParameter(name, description = d)`: type "string", required. */
  function Param(name: string, description: string): (p: ToolParameter)
    ensures p.name == name && p.description == description
    ensures p.paramType == "string" && p.required
  {
    ToolParameter(name, "string", description, true)
  }

  datatype PropertyDef = PropertyDef(propType: string, description: string)

  datatype InputSchema = InputSchema(schemaType: string, properties: map<string, PropertyDef>, required: seq<string>)

  datatype ToolDefinition = ToolDefinition(name: string, description: string, inputSchema: InputSchema)

  /** What a tool declares. */
  datatype ToolSpec = ToolSpec(name: string, description: string, parameters: seq<ToolParameter>)

  function PropertyOf(p: ToolParameter): PropertyDef {
    PropertyDef(p.paramType, p.description)
  }

  /** `associate`: later parameters overwrite earlier ones with the same name. */
  function Properties(ps: seq<ToolParameter>): (m: map<string, PropertyDef>)
    ensures forall k :: k in m <==> exists i :: 0 <= i < |ps| && ps[i].name == k
  {
    if ps == [] then map[]
    else
      var m := Properties(ps[..|ps| - 1])[ps[|ps| - 1].name := PropertyOf(ps[|ps| - 1])];
      assert forall i :: 0 <= i < |ps| - 1 ==> ps[..|ps| - 1][i] == ps[i];
      m
  }

  /** A name maps to the property of its last declaration. */
  lemma {:induction false} PropertiesLastWins(ps: seq<ToolParameter>, i: nat)
    requires i < |ps| && forall j :: i < j < |ps| ==> ps[j].name != ps[i].name
    ensures ps[i].name in Properties(ps) && Properties(ps)[ps[i].name] == PropertyOf(ps[i])
  {
    if i < |ps| - 1 {
      var init := ps[..|ps| - 1];
      assert init[i] == ps[i];
      PropertiesLastWins(init, i);
    }
  }

  /** `parameters.filter { it.required }.map { it.name }` */
  function RequiredNames(ps: seq<ToolParameter>): (r: seq<string>)
    ensures forall x :: x in r <==> exists i :: 0 <= i < |ps| && ps[i].required && ps[i].name == x
  {
    if ps == [] then []
    else (if ps[0].required then [ps[0].name] else []) + RequiredNames(ps[1..])
  }

  /** The required names come in declaration order: declaring one more
   *  parameter appends its name exactly when it is required. */
  lemma {:induction false} RequiredNamesInOrder(ps: seq<ToolParameter>, p: ToolParameter)
    ensures RequiredNames(ps + [p]) == RequiredNames(ps) + (if p.required then [p.name] else [])
  {
    if ps == [] {
      assert ps + [p] == [p];
    } else {
      assert (ps + [p])[1..] == ps[1..] + [p];
      RequiredNamesInOrder(ps[1..], p);
    }
  }

  /** `toToolDefinition`: the tool's own name and description and an
   *  "object" schema over its parameters. */
  function ToToolDefinition(t: ToolSpec): (d: ToolDefinition)
    ensures d.name == t.name && d.description == t.description
    ensures d.inputSchema.schemaType == "object"
    ensures forall k :: k in d.inputSchema.properties <==> exists i :: 0 <= i < |t.parameters| && t.parameters[i].name == k
    ensures forall x :: x in d.inputSchema.required <==>
              exists i :: 0 <= i < |t.parameters| && t.parameters[i].required && t.parameters[i].name == x
  {
    ToolDefinition(t.name, t.description, InputSchema("object", Properties(t.parameters), RequiredNames(t.parameters)))
  }
}
