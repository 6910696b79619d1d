/** The tracker's input and output records. */
module Records {
  import opened Geometry

  /** One detector output for one frame: a box, a class label and a score. */
  datatype Detection = Detection(bbox: Box, classLabel: string, confidence: real)

  /** The snapshot of one live track returned by a frame update. */
  datatype Track = Track(
    id: nat,
    bbox: Box,
    classLabel: string,
    confidence: real,
    age: nat,
    hits: nat,
    timeSinceUpdate: nat,
    velocity: (real, real),
    history: seq<(real, real)>)
}
