/**
 * The records that flow through the services: a source's raw listing item
 * (backend/internal/source/model.go) and the merged search item, its source
 * references and the detail record (backend/internal/model/video.go).
 */
module Model {

  /**
   * One video as one source's listing API returns it. `sourceCode` and
   * `sourceName` are stamped by the client after decoding (provenance).
   */
  datatype RawVideo = RawVideo(
    vodId: int,
    vodName: string,
    vodPic: string,
    vodRemarks: string,
    typeName: string,
    vodPlayUrl: string,
    vodContent: string,
    vodYear: string,
    vodArea: string,
    vodDirector: string,
    vodActor: string,
    sourceCode: string,
    sourceName: string)

  /** Where one merged search item can be found: a source and that source's id for it. */
  datatype SourceInfo = SourceInfo(sourceCode: string, sourceName: string, vodId: int)

  /** A merged search item: canonical fields plus one reference per contributing raw item. */
  datatype VideoItem = VideoItem(
    vodName: string,
    vodPic: string,
    vodRemarks: string,
    typeName: string,
    sources: seq<SourceInfo>)

  /** The detail record of one video from one source, with its playable episode URLs. */
  datatype VideoDetail = VideoDetail(
    vodName: string,
    vodPic: string,
    vodContent: string,
    vodYear: string,
    vodArea: string,
    vodDirector: string,
    vodActor: string,
    episodes: seq<string>)
}
