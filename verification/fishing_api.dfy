/** The body of the catch upload request and the ids it carries. */
module FishingApi {
  import opened CatchStore

  /** `CatchesToPost(deviceId, catches)`: the JSON body posted to the server. */
  datatype CatchesToPost = CatchesToPost(deviceId: string, catches: seq<FullCatch>)

  /** `getCatchIds()`: the id of every catch in the body, in body order. */
  function GetCatchIds(body: CatchesToPost): (ids: seq<int>)
    ensures |ids| == |body.catches|
    ensures forall k :: 0 <= k < |ids| ==> ids[k] == body.catches[k].aCatch.id
    decreases |body.catches|
  {
    if body.catches == [] then []
    else
      var front := CatchesToPost(body.deviceId, body.catches[..|body.catches| - 1]);
      GetCatchIds(front) + [body.catches[|body.catches| - 1].aCatch.id]
  }

  /** An id is listed exactly when some catch of the body carries it. */
  lemma GetCatchIdsMembers(body: CatchesToPost, id: int)
    ensures id in GetCatchIds(body) <==> exists k :: 0 <= k < |body.catches| && body.catches[k].aCatch.id == id
  {
    var ids := GetCatchIds(body);
    if id in ids {
      var k :| 0 <= k < |ids| && ids[k] == id;
      assert body.catches[k].aCatch.id == id;
    }
  }
}
