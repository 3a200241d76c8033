/** Value types of the part mapper: marker statuses, view modes, parts,
    image bindings and the export snapshot (src/interface/interfaces.ts). */
module Interfaces {

  datatype Option<+T> = None | Some(value: T)

  /** The five marker statuses of a part. */
  datatype MarkerStatus = Unmapped | Mapped | Ok | NotOK | Editing

  /** The three lifecycle stages of a view. */
  datatype ViewMode = Initial | Mapping | Complete

  /** A position as a fraction of the rendered image's width and height. */
  datatype Coordinates = Coordinates(x: real, y: real)

  /** A catalog part; `status` and `coordinates` are optional, as in the source. */
  datatype Part = Part(
    partNumber: int,
    partName: string,
    group: int,
    view: string,
    status: Option<MarkerStatus>,
    coordinates: Option<Coordinates>)

  /** A browser File: an opaque identity and the name it was uploaded under. */
  datatype File = File(id: nat, name: string)

  /** An object URL handed out by the browser for a File; opaque. */
  datatype ObjectUrl = ObjectUrl(id: nat)

  /** The image bound to a view: a nullable file and a nullable object URL. */
  datatype ImageState = ImageState(file: Option<File>, objectUrl: Option<ObjectUrl>)

  datatype ExportMetadata = ExportMetadata(exportedAt: string, viewCount: nat)

  datatype ExportPart = ExportPart(
    partNumber: int,
    partName: string,
    coordinates: Option<Coordinates>,
    status: Option<MarkerStatus>)

  datatype ExportView = ExportView(viewName: string, imageFileName: Option<string>, parts: seq<ExportPart>)

  datatype ExportData = ExportData(metadata: ExportMetadata, views: seq<ExportView>)

  /** The string literal of each status in the source's union type. */
  function StatusName(s: MarkerStatus): string
  {
    match s
    case Unmapped => "unmapped"
    case Mapped => "mapped"
    case Ok => "ok"
    case NotOK => "notOK"
    case Editing => "editing"
  }

  /** Each status has its own literal. */
  lemma StatusNameInjective(a: MarkerStatus, b: MarkerStatus)
    ensures StatusName(a) == StatusName(b) <==> a == b
  {
  }

  /** The string literal of each mode in the source's union type. */
  function ModeName(m: ViewMode): string
  {
    match m
    case Initial => "initial"
    case Mapping => "mapping"
    case Complete => "complete"
  }

  /** Each mode has its own literal. */
  lemma ModeNameInjective(a: ViewMode, b: ViewMode)
    ensures ModeName(a) == ModeName(b) <==> a == b
  {
  }
}
