/** The ONNX model entities the importer reads: nodes, graphs, attributes and functions. */
module OnnxModel {

  type Name = string

  /** An attribute value: plain data (integers, floats, tensors, ...) or a nested graph. */
  datatype AttrValue = Data(payload: string) | Subgraph(graph: Graph)

  /** An attribute; a non-empty `refName` makes it a reference to an attribute of the enclosing function. */
  datatype Attr = Attr(name: Name, refName: Name, value: AttrValue)

  datatype Node = Node(
    name: string, opType: string, domain: string,
    inputs: seq<Name>, outputs: seq<Name>, attrs: seq<Attr>)

  datatype Initializer = Initializer(name: Name, tensor: string)

  datatype Graph = Graph(
    name: string, initializers: seq<Initializer>, inputs: seq<Name>,
    nodes: seq<Node>, outputs: seq<Name>)

  /** A model-local function, or the function decomposition of an operator schema. */
  datatype Function = Function(
    name: string, inputs: seq<Name>, outputs: seq<Name>, nodes: seq<Node>,
    attributes: seq<Name>, defaults: seq<Attr>, opsets: map<string, int>)
}
