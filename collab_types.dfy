/** The BCF collaboration records of collab/types.go.  A Go pointer field is
    an `Option`; a float64 is kept as its IEEE 754 bit pattern, since the
    model only copies floats and never computes with them; a time is an
    integer instant; a raw JSON message is its text. */
module CollabTypes {
  import opened Wrappers

  /** The bits of an IEEE 754 binary64 value. */
  type Float64 = bv64

  /** 0.0, the zero value of a Go float64. */
  const Zero: Float64 := 0

  datatype Vector3 = Vector3(x: Float64, y: Float64, z: Float64)

  const Origin: Vector3 := Vector3(Zero, Zero, Zero)

  datatype Viewpoint = Viewpoint(
    id: string,
    guid: string,
    topicId: string,
    cameraType: string,
    cameraPosition: Vector3,
    cameraDirection: Vector3,
    cameraUp: Vector3,
    fieldOfView: Option<Float64>,
    viewWorldScale: Option<Float64>,
    snapshotBase64: Option<string>,
    components: Option<string>,
    clippingPlanes: Option<string>,
    lines: Option<string>,
    createdAt: int)

  datatype Comment = Comment(
    id: string,
    body: string,
    viewpointId: Option<string>,
    topicId: string,
    authorId: string,
    authorName: Option<string>,
    createdAt: int,
    updatedAt: int)

  /** A topic; `labels` is `None` for a nil slice (a NULL column). */
  datatype Topic = Topic(
    id: string,
    guid: string,
    title: string,
    description: Option<string>,
    priority: Option<string>,
    topicType: Option<string>,
    topicStatus: string,
    stage: Option<string>,
    assignedTo: Option<string>,
    assignedToName: Option<string>,
    dueDate: Option<string>,
    labels: Option<seq<string>>,
    projectId: string,
    creatorId: string,
    creatorName: Option<string>,
    modifiedBy: Option<string>,
    viewpoints: seq<Viewpoint>,
    comments: seq<Comment>,
    fileVersionIds: seq<string>,
    createdAt: int,
    updatedAt: int)

  /** A topic with every field at its Go zero value. */
  const EmptyTopic: Topic := Topic("", "", "", None, None, None, "", None, None, None, None, None,
                                   "", "", None, None, [], [], [], 0, 0)

  const EmptyViewpoint: Viewpoint := Viewpoint("", "", "", "", Origin, Origin, Origin, None, None,
                                               None, None, None, None, 0)

  const EmptyComment: Comment := Comment("", "", None, "", "", None, 0, 0)

  datatype TopicFilters = TopicFilters(status: string, priority: string, assignedTo: string)

  datatype CreateViewpointRequest = CreateViewpointRequest(
    cameraType: string,
    cameraPosition: Vector3,
    cameraDirection: Vector3,
    cameraUp: Vector3,
    fieldOfView: Option<Float64>,
    viewWorldScale: Option<Float64>,
    snapshotBase64: Option<string>,
    components: Option<string>,
    clippingPlanes: Option<string>)

  datatype CreateTopicRequest = CreateTopicRequest(
    title: string,
    description: Option<string>,
    priority: Option<string>,
    topicType: Option<string>,
    assignedTo: Option<string>,
    dueDate: Option<string>,
    labels: Option<seq<string>>,
    fileVersionIds: seq<string>,
    viewpoint: Option<CreateViewpointRequest>)

  datatype CreateCommentRequest = CreateCommentRequest(body: string, viewpointId: Option<string>)
}
