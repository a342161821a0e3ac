/**
 * PaymentSettings.js: the gym owner's UPI id and payment QR code form. The
 * handlers are steps from the form state (and, where they have one, the
 * server's reply) to the next state and the PATCH they send.
 *
 * A dropped file is its MIME type and what `FileReader.readAsDataURL` makes
 * of it (`None` when reading fails); the reading is treated as finished
 * before the next event.
 */
module Payments {
  import opened Wrappers
  import opened Text

  const UpiNeedsAt := "UPI ID must contain @ symbol"
  const NotAnImage := "Please upload an image file"
  const LoadFailed := "Failed to load payment settings"
  const SaveFailed := "Failed to update payment settings"
  const Saved := "Payment settings updated successfully"

  datatype StagedFile = StagedFile(mimeType: string, dataUrl: Option<string>)

  datatype PaymentState = PaymentState(
    upiId: string,
    staged: Option<StagedFile>,
    previewUrl: string,
    loading: bool,
    error: string,
    success: string,
    upiError: string)

  /** The '@' rule: an empty id is allowed, a non-empty one needs an '@'. */
  predicate UpiValid(upiId: string) {
    upiId == "" || '@' in upiId
  }

  /** `handleUpiChange`: store the value and flag it exactly when it breaks the '@' rule. */
  function UpiChange(st: PaymentState, value: string): (r: PaymentState)
    ensures r.upiId == value
    ensures r.upiError != "" <==> value != "" && '@' !in value
    ensures r.upiError != "" ==> r.upiError == UpiNeedsAt
    ensures r == st.(upiId := value, upiError := r.upiError)
  {
    if value != "" && '@' !in value then st.(upiId := value, upiError := UpiNeedsAt)
    else st.(upiId := value, upiError := "")
  }

  /** The error shown under the UPI field agrees with the '@' rule for the id in the field. */
  predicate UpiErrorAgrees(st: PaymentState) {
    st.upiError == (if UpiValid(st.upiId) then "" else UpiNeedsAt)
  }

  /**
   * `onDrop`: no file changes nothing; a first file that is not an image only
   * sets the error; an image is staged and, once read, becomes the preview.
   */
  function Drop(st: PaymentState, files: seq<StagedFile>): (r: PaymentState)
    ensures files == [] ==> r == st
    ensures files != [] && !StartsWith(files[0].mimeType, "image/") ==> r == st.(error := NotAnImage)
    ensures files != [] && StartsWith(files[0].mimeType, "image/") ==>
      && r.staged == Some(files[0])
      && r.previewUrl == files[0].dataUrl.GetOr(st.previewUrl)
      && r == st.(staged := r.staged, previewUrl := r.previewUrl)
  {
    if files == [] then st
    else
      var file := files[0];
      if !StartsWith(file.mimeType, "image/") then st.(error := NotAnImage)
      else st.(staged := Some(file), previewUrl := file.dataUrl.GetOr(st.previewUrl))
  }

  /** `handleDeleteQrCode`: unstage the file and drop the preview; nothing is sent. */
  function DeleteQr(st: PaymentState): (r: PaymentState)
    ensures r.staged.None? && r.previewUrl == ""
    ensures r == st.(staged := None, previewUrl := "")
  {
    st.(staged := None, previewUrl := "")
  }

  /** The body of the PATCH to `/api/gym/payment-settings`: each field only when there is something to send. */
  datatype PaymentPatch = PaymentPatch(upiId: Option<string>, qrCode: Option<string>)

  datatype SaveReply = SaveAccepted | SaveRejected

  /**
   * `handleSubmit`. An id that breaks the '@' rule is flagged and nothing is
   * sent. Otherwise the messages are cleared, the id goes in when non-empty
   * and the staged file's data URL when a file is staged; a file that cannot
   * be read fails the save before anything is sent.
   */
  function Submit(st: PaymentState, reply: SaveReply): (r: (PaymentState, Option<PaymentPatch>))
    ensures !UpiValid(st.upiId) ==> r == (st.(upiError := UpiNeedsAt), None)
    ensures UpiValid(st.upiId) ==>
      && !r.0.loading && r.0.upiId == st.upiId && r.0.staged == st.staged
      && r.0.previewUrl == st.previewUrl && r.0.upiError == st.upiError
    ensures r.1.Some? <==> UpiValid(st.upiId) && (st.staged.None? || st.staged.value.dataUrl.Some?)
    ensures r.1.Some? ==> (r.1.value.upiId.Some? <==> st.upiId != "")
    ensures r.1.Some? && r.1.value.upiId.Some? ==> r.1.value.upiId.value == st.upiId
    ensures r.1.Some? ==> r.1.value.qrCode == (if st.staged.Some? then st.staged.value.dataUrl else None)
    ensures r.1.Some? && reply == SaveAccepted ==> r.0.success == Saved && r.0.error == ""
    ensures UpiValid(st.upiId) && !(r.1.Some? && reply == SaveAccepted) ==> r.0.success == "" && r.0.error == SaveFailed
  {
    if !UpiValid(st.upiId) then (st.(upiError := UpiNeedsAt), None)
    else
      var cleared := st.(error := "", success := "");
      if st.staged.Some? && st.staged.value.dataUrl.None? then
        (cleared.(error := SaveFailed, loading := false), None)
      else
        var patch := PaymentPatch(
          if st.upiId != "" then Some(st.upiId) else None,
          if st.staged.Some? then st.staged.value.dataUrl else None);
        match reply
        case SaveAccepted => (cleared.(success := Saved, loading := false), Some(patch))
        case SaveRejected => (cleared.(error := SaveFailed, loading := false), Some(patch))
  }

  /** What the settings endpoint returned: the stored id and QR code, either possibly absent. */
  datatype StoredSettings = StoredSettings(upiId: Option<string>, qrCode: Option<string>)

  /**
   * The fetch on mount: non-empty stored values fill the id and the preview;
   * a failed fetch only sets the error.
   */
  function Load(st: PaymentState, reply: Option<StoredSettings>): (r: PaymentState)
    ensures !r.loading && r.staged == st.staged && r.upiError == st.upiError && r.success == st.success
    ensures reply.None? ==> r == st.(loading := false, error := LoadFailed)
    ensures reply.Some? ==> r.error == st.error
    ensures reply.Some? && reply.value.upiId.GetOr("") != "" ==> r.upiId == reply.value.upiId.value
    ensures reply.Some? && reply.value.upiId.GetOr("") == "" ==> r.upiId == st.upiId
    ensures reply.Some? && reply.value.qrCode.GetOr("") != "" ==> r.previewUrl == reply.value.qrCode.value
    ensures reply.Some? && reply.value.qrCode.GetOr("") == "" ==> r.previewUrl == st.previewUrl
  {
    match reply
    case None => st.(loading := false, error := LoadFailed)
    case Some(settings) =>
      var upiId := if settings.upiId.GetOr("") != "" then settings.upiId.value else st.upiId;
      var preview := if settings.qrCode.GetOr("") != "" then settings.qrCode.value else st.previewUrl;
      st.(upiId := upiId, previewUrl := preview, loading := false)
  }

  /** The Save button is disabled while loading, or while a non-empty id carries an error. */
  predicate SaveDisabled(st: PaymentState) {
    st.loading || (st.upiId != "" && st.upiError != "")
  }

  /** Editing the id always leaves the field's error in agreement with the '@' rule. */
  lemma UpiChangeAgrees(st: PaymentState, value: string)
    ensures UpiErrorAgrees(UpiChange(st, value))
  {
  }

  /** Dropping files, deleting the QR code and submitting keep the field's error in agreement. */
  lemma HandlersKeepAgreement(st: PaymentState, files: seq<StagedFile>, reply: SaveReply)
    requires UpiErrorAgrees(st)
    ensures UpiErrorAgrees(Drop(st, files))
    ensures UpiErrorAgrees(DeleteQr(st))
    ensures UpiErrorAgrees(Submit(st, reply).0)
  {
  }

  /**
   * While the field's error agrees with the '@' rule and nothing is loading,
   * the Save button is enabled exactly when submitting gets past the '@'
   * check.
   */
  lemma SaveEnabledIffIdPasses(st: PaymentState, reply: SaveReply)
    requires UpiErrorAgrees(st) && !st.loading
    ensures !SaveDisabled(st) <==> UpiValid(st.upiId)
    ensures !SaveDisabled(st) && (st.staged.None? || st.staged.value.dataUrl.Some?) ==> Submit(st, reply).1.Some?
    ensures SaveDisabled(st) ==> Submit(st, reply).1.None?
  {
  }

  /**
   * Loading a stored id sets it without checking it: a stored id with no '@'
   * leaves Save enabled, and only the submit-time check catches it.
   */
  lemma LoadSkipsUpiCheck(st: PaymentState, id: string, qrCode: Option<string>, reply: SaveReply)
    requires st.upiError == "" && id != "" && '@' !in id
    ensures var loaded := Load(st, Some(StoredSettings(Some(id), qrCode)));
      && !UpiErrorAgrees(loaded)
      && !SaveDisabled(loaded)
      && Submit(loaded, reply).1.None?
      && Submit(loaded, reply).0.upiError == UpiNeedsAt
  {
  }

  /** After the QR code is deleted a save sends no QR code; what the server keeps is not modelled. */
  lemma DeleteThenSaveSendsNoQr(st: PaymentState, reply: SaveReply)
    requires UpiValid(st.upiId)
    ensures Submit(DeleteQr(st), reply).1.Some?
    ensures Submit(DeleteQr(st), reply).1.value.qrCode.None?
  {
  }
}
