/** The exporter's inputs: export settings, and each mesh as the evaluated geometry Blender
    hands over (faces with area, corner positions, normal and per-loop colours, plus the
    object's active material). Geometry is already in world space. */
module Scene {
  import opened Wrappers
  import opened Numeric

  /** A colour as Blender stores it in a colour layer or socket. */
  datatype RGBA = RGBA(r: real, g: real, b: real, a: real)

  /** A colour as a splat carries it: alpha is never kept. */
  datatype RGB = RGB(r: real, g: real, b: real)

  const White: RGB := RGB(1.0, 1.0, 1.0)

  /** The node type string of a Principled BSDF shader node. */
  const PrincipledType: string := "BSDF_PRINCIPLED"

  /** A shader node: its type and the default value of its 'Base Color' input. */
  datatype Node = Node(nodeType: string, baseColor: RGBA)

  datatype Material = Material(useNodes: bool, nodes: seq<Node>)

  /** A bmesh face: its area, its vertex positions in order, its normal (already carried
      into world space), and the active colour layer's value at each of its loops. */
  datatype Face = Face(area: real, verts: seq<Vec3>, normal: Vec3, loopColors: seq<RGBA>)

  /** An evaluated mesh object: faces, whether it has any vertex colour layer, and its
      active material if any. */
  datatype Mesh = Mesh(faces: seq<Face>, hasVertexColors: bool, material: Option<Material>)

  /** The operator's properties that reach the splat-building rules. */
  datatype Settings = Settings(
    sampleDensity: real,
    splatScale: real,
    useVertexColors: bool,
    useNormals: bool)

  /** What can stop an export: nothing selected, the exceptions the Python code can raise
      on degenerate input, and a converter that exits non-zero. */
  datatype Error =
    | NoMeshSelected
    | ZeroDivision
    | MathDomain
    | NotEnoughVertices
    | ConverterFailed(exitCode: int)

  /** The errors that are Python exceptions, caught by execute's handler. */
  predicate Raised(e: Error) {
    e.ZeroDivision? || e.MathDomain? || e.NotEnoughVertices?
  }

  /** Bounds Blender enforces on the operator's float properties. */
  predicate ValidSettings(st: Settings) {
    && 1.0 <= st.sampleDensity <= 10000.0
    && 0.001 <= st.splatScale <= 1.0
  }
}
