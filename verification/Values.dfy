/** The values that travel between nodes, node errors, and the calls a node
    makes while it evaluates (elements-core `graph/node.rs`, `graph/socket.rs`). */
module Values {

  datatype Option<+T> = None | Some(value: T)

  datatype Result<+T, +E> = Ok(value: T) | Err(error: E)

  type NodeId = nat

  /** One socket of one node; input or output depends on how it is used. */
  datatype SocketId = SocketId(node: NodeId, index: nat)

  datatype SocketType = FieldSocket | ScalarSocket | VectorSocket

  datatype Dims = Dims(x: nat, y: nat, z: nat) {
    function Voxels(): nat { x * y * z }
  }

  /** A texture's pool bucket: its extent and its bytes per voxel. */
  datatype Shape = Shape(dims: Dims, bytesPerVoxel: nat) {
    function Bytes(): nat { dims.Voxels() * bytesPerVoxel }
  }

  /** A value is its bit pattern, so equality is bit identity. A field owns one
      texture, a vector field one per face axis, a scalar none. */
  datatype Value =
    | Field(shape: Shape, data: seq<bv32>)
    | Scalar(bits: bv32)
    | VectorField(cells: Dims, x: seq<bv32>, y: seq<bv32>, z: seq<bv32>)
  {
    /** The shapes of the textures this value owns. */
    function Textures(): seq<Shape> {
      match this
      case Field(s, _) => [s]
      case Scalar(_) => []
      case VectorField(c, _, _, _) =>
        [Shape(Dims(c.x + 1, c.y, c.z), 4), Shape(Dims(c.x, c.y + 1, c.z), 4), Shape(Dims(c.x, c.y, c.z + 1), 4)]
    }

    function GpuBytes(): nat {
      match this
      case Field(s, _) => s.Bytes()
      case Scalar(_) => 4
      case VectorField(_, _, _, _) =>
        Textures()[0].Bytes() + Textures()[1].Bytes() + Textures()[2].Bytes()
    }

    /** Whether a stored value still fits a domain of `dims`. */
    predicate Fits(dims: Dims) {
      match this
      case Field(s, _) => s.dims == dims
      case Scalar(_) => true
      case VectorField(c, _, _, _) => c == dims
    }
  }

  /** The voxels of some textures, each times its bytes per voxel. */
  function TextureBytes(shapes: seq<Shape>): nat {
    if shapes == [] then 0
    else shapes[0].dims.x * shapes[0].dims.y * shapes[0].dims.z * shapes[0].bytesPerVoxel + TextureBytes(shapes[1..])
  }

  /** What a value is counted as is what its textures take, and 4 for a scalar. */
  lemma BytesAreTextures(v: Value)
    ensures v.GpuBytes() == if v.Scalar? then 4 else TextureBytes(v.Textures())
  {
    var t := v.Textures();
    if v.Field? {
      assert t[1..] == [];
    } else if v.VectorField? {
      assert t[1..] == [t[1], t[2]] && [t[1], t[2]][1..] == [t[2]] && [t[2]][1..] == [];
      assert TextureBytes([t[2]]) == t[2].Bytes();
      assert TextureBytes([t[1], t[2]]) == t[1].Bytes() + TextureBytes([t[2]]);
    }
  }

  /** A value fits a domain when its textures are those its kind has there: the
      domain's own, or a face grid one longer along each axis in turn. */
  lemma FitsExactly(v: Value, d: Dims)
    ensures v.Fits(d) <==>
      match v
      case Scalar(_) => true
      case Field(_, _) => v.Textures()[0].dims == d
      case VectorField(_, _, _, _) =>
        v.Textures() ==
        [Shape(Dims(d.x + 1, d.y, d.z), 4), Shape(Dims(d.x, d.y + 1, d.z), 4), Shape(Dims(d.x, d.y, d.z + 1), 4)]
  {
    if v.VectorField? && v.cells != d {
      var t := v.Textures();
      assert t[0].dims == Dims(v.cells.x + 1, v.cells.y, v.cells.z);
      assert t[1].dims == Dims(v.cells.x, v.cells.y + 1, v.cells.z);
    }
  }

  datatype StateKey = StateKey(node: NodeId, slot: string)

  type State = map<StateKey, Value>

  datatype NodeError =
    | Cycle(node: NodeId)
    | MissingInput(node: NodeId, index: nat)
    | InputAlreadyTaken(node: NodeId, index: nat)
    | TypeMismatch(node: NodeId, index: nat, expected: SocketType)
    | InputAlreadyConnected(node: NodeId, index: nat)
    | UnknownNode(node: NodeId)
    | BadExtraOutput(node: NodeId, index: nat)
    | NoOutput
    | NotStateful(node: NodeId)
    | StateShape(node: NodeId, slot: string)
    | Failed(node: NodeId, code: int)
    | Gpu

  /** When an evaluation happens: seconds are `elapsed / fps`, the step is `1 / fps`. */
  datatype Time = Time(frame: nat, elapsed: nat, fps: real)

  /** What a node asks of its context next. */
  datatype Action =
    | Return(outputs: seq<Value>)
    | Fail(error: NodeError)
    | InputConnected(index: nat)
    | Input(index: nat)
    | TakeInput(index: nat)
    | OutputWanted(index: nat)
    | TakeState(slot: string)
    | PutState(slot: string, stored: Value)

  /** What the context answers. */
  datatype Reply = Lent(value: Value) | Flag(answer: bool) | Slot(found: Option<Value>) | Stored

  /** A node: its signature, and its `eval` as a strategy that picks the next
      call from the answers so far. `limit` bounds the calls one `eval` makes. */
  datatype Node = Node(inputs: seq<SocketType>, outputs: seq<SocketType>, stateful: bool,
                       strategy: (Time, Dims, seq<Reply>) -> Action, limit: nat)
  {
    /** `eval` stops within `limit` calls and returns one value per output.
        Only a GPU call reports a GPU failure. */
    ghost predicate WellFormed() {
      forall t: Time, d: Dims, h: seq<Reply> ::
        && (strategy(t, d, h).Return? ==> |strategy(t, d, h).outputs| == |outputs|)
        && strategy(t, d, h) != Fail(Gpu)
        && (|h| >= limit ==> strategy(t, d, h).Return? || strategy(t, d, h).Fail?)
    }
  }
}
