/**
 The view-synchronisation registry as the instance operator uses it: the
 primary viewer, the attached viewers in registration order, and the flag
 that tells the registry the attached views must be brought up to date.
 Its own reconciliation pass is not part of this model.
 */
module Sync {
  import opened Engine

  class SyncHelper {
    const mainViewer: ViewerId
    const attachedViewers: seq<ViewerId>
    var needsUpdate: bool

    constructor (mainViewer: ViewerId, attachedViewers: seq<ViewerId>)
      ensures this.mainViewer == mainViewer && this.attachedViewers == attachedViewers
      ensures !needsUpdate
    {
      this.mainViewer := mainViewer;
      this.attachedViewers := attachedViewers;
      needsUpdate := false;
    }

    method SetNeedsUpdate(flag: bool)
      modifies this`needsUpdate
      ensures needsUpdate == flag
    {
      needsUpdate := flag;
    }
  }
}
