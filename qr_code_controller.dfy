/** The QR code endpoints: GET answers 204 when there is nothing to show, POST refuses an
    empty image with 400 before the service is called. */
module QrCodeApi {
  import opened Common
  import opened SecurityUtil
  import opened QrCodes

  /** Status codes, as defined in RFC 9110 */
  const OkStatus := 200          // section 15.3.1
  const NoContentStatus := 204   // section 15.3.5
  const BadRequestStatus := 400  // section 15.5.1

  /** The GET response for the service's answer. */
  function LatestResponse(latest: Option<QrCode>): (r: Response<QrCode>)
    ensures r.status == NoContentStatus <==> latest.None?
    ensures latest.None? ==> r.body.None?
    ensures latest.Some? ==> r.status == OkStatus && r.body == latest
  {
    if latest.None? then Response(NoContentStatus, None) else Response(OkStatus, latest)
  }

  /** The POST guard: a null or empty image is refused. */
  predicate Uploadable(imageData: Option<string>) {
    imageData.Some? && imageData.value != ""
  }

  class QrCodeController {
    const service: QrCodeService

    constructor (service: QrCodeService)
      ensures this.service == service
    {
      this.service := service;
    }

    method GetQrCode(auth: Option<Authentication>) returns (r: Result<Response<QrCode>>)
      ensures CurrentUserId(auth).Err? ==> r == Err(CurrentUserId(auth).error)
      ensures CurrentUserId(auth).Ok? ==> r.Ok?
      ensures r.Ok? ==> (r.value.status == NoContentStatus <==> !HasCode(service.codes, CurrentUserId(auth).value))
      ensures r.Ok? && r.value.status == NoContentStatus ==> r.value.body.None?
      ensures r.Ok? && r.value.status != NoContentStatus ==>
        && r.value.status == OkStatus && r.value.body.Some?
        && exists k :: IsLatest(service.codes, CurrentUserId(auth).value, k) && service.codes[k] == r.value.body.value
    {
      var latest := service.GetLatestQrCode(auth);
      if latest.Err? {
        r := Err(latest.error);
        return;
      }
      r := Ok(LatestResponse(latest.value));
    }

    /** `newId` and `now` are what the repository and the clock supply to the service. */
    method UploadQrCode(auth: Option<Authentication>, imageData: Option<string>, newId: string, now: int) returns (r: Result<Response<QrCode>>)
      requires service.Valid() && newId !in service.codes
      modifies service
      ensures service.Valid()
      ensures !Uploadable(imageData) ==> r == Ok(Response(BadRequestStatus, None)) && service.codes == old(service.codes)
      ensures Uploadable(imageData) && CurrentUserId(auth).Err? ==> r == Err(CurrentUserId(auth).error) && service.codes == old(service.codes)
      ensures Uploadable(imageData) && CurrentUserId(auth).Ok? ==>
        && r.Ok? && r.value.status == OkStatus && r.value.body.Some?
        && Saved(old(service.codes), service.codes, CurrentUserId(auth).value, imageData.value, newId, now, r.value.body.value)
    {
      if imageData.None? || imageData.value == "" {
        r := Ok(Response(BadRequestStatus, None));
        return;
      }
      var saved := service.SaveQrCode(auth, imageData.value, newId, now);
      if saved.Err? {
        r := Err(saved.error);
        return;
      }
      r := Ok(Response(OkStatus, Some(saved.value)));
    }
  }
}
