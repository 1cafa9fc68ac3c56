/** The ownership gate (src/middlewares/checkOwnershipMiddleware.js). Ids are the
    strings the request carries; "" is a missing id. */
module OwnershipMiddleware {
  import opened Base

  /** `req.params.id || req.body.user_id`. */
  function ResourceId(paramsId: string, bodyUserId: string): (id: string)
    ensures Truthy(paramsId) ==> id == paramsId
    ensures !Truthy(paramsId) ==> id == bodyUserId
  {
    if Truthy(paramsId) then paramsId else bodyUserId
  }

  /** `checkOwnershipMiddleware`: 400 without a resource id, 403 when it differs from
      the token's user id, `next` only when both checks pass. */
  function OwnershipGate(tokenUserId: string, paramsId: string, bodyUserId: string): (d: Gate)
    ensures !Truthy(paramsId) && !Truthy(bodyUserId) ==> d == Reject(400)
    ensures d == Next <==> Truthy(ResourceId(paramsId, bodyUserId)) && ResourceId(paramsId, bodyUserId) == tokenUserId
    ensures Truthy(ResourceId(paramsId, bodyUserId)) && ResourceId(paramsId, bodyUserId) != tokenUserId ==> d == Reject(403)
  {
    var id := ResourceId(paramsId, bodyUserId);
    if !Truthy(id) then Reject(400)
    else if tokenUserId != id then Reject(403)
    else Next
  }

  /** A path id takes precedence: the body's `user_id` is then never looked at. */
  lemma PathIdShadowsBody(tokenUserId: string, paramsId: string, body1: string, body2: string)
    requires Truthy(paramsId)
    ensures OwnershipGate(tokenUserId, paramsId, body1) == OwnershipGate(tokenUserId, paramsId, body2)
  {
  }

  /** A caller always passes with its own id, whichever place carries it. */
  lemma OwnIdPasses(tokenUserId: string, bodyUserId: string)
    requires Truthy(tokenUserId)
    ensures OwnershipGate(tokenUserId, tokenUserId, bodyUserId) == Next
    ensures OwnershipGate(tokenUserId, "", tokenUserId) == Next
  {
  }
}
