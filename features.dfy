/** Face enrolment and verification decisions, and the dummy payment request
    check (features.py). The `face_recognition` library is abstract: a
    `FaceLibrary` value says whether the import succeeded and gives the two
    library entry points as total functions whose `Err` results stand for the
    exceptions they may raise. */
module Features {
  import opened Wrappers
  import opened Float64Buffer

  datatype FaceLibrary = FaceLibrary(
    /** `FACE_RECOGNITION_AVAILABLE`: whether `import face_recognition` succeeded. */
    available: bool,
    /** `face_encodings(load_image_file(BytesIO(photo)))`: one encoding per
        detected face, in the library's order. */
    faceEncodings: seq<bv8> -> Result<seq<Encoding>>,
    /** `compare_faces([known], current, tolerance=0.5)[0]`: the Euclidean
        distance test on the two vectors. */
    compareFaces: (Encoding, Encoding) -> Result<bool>)

  /** What `get_face_encoding_from_photo` returns: the encoding or `None`, and a message. */
  datatype EncodingResult = EncodingResult(encoding: Option<Encoding>, message: string)

  /** What `recognize_face` returns: the decision and a message. */
  datatype Recognition = Recognition(matched: bool, message: string)

  const NotAvailableOrNoPhoto := "Face recognition is not available or no photo provided."
  const EncodingGenerated := "Face encoding generated successfully."
  const NoFaceFound := "No face found in the uploaded photo."
  const PhotoErrorPrefix := "Error processing photo for face recognition: "

  const NotAvailable := "Face recognition is not available."
  const NoRegisteredFace := "No registered face data found for this student."
  const NoCurrentPhoto := "No current photo provided for attendance."
  const NoFaceDetectedPrefix := "Could not detect face in current photo: "
  const FaceRecognized := "Face recognized successfully."
  const FaceNotRecognized := "Face not recognized. Please try again."
  const RecognitionErrorPrefix := "Error during face recognition: "

  /** `get_face_encoding_from_photo`: the first face the library finds in the photo. */
  function FaceEncodingFromPhoto(lib: FaceLibrary, photo: seq<bv8>): (r: EncodingResult)
    // Without the library or without a photo nothing is decoded.
    ensures !lib.available || !Truthy(photo) ==> r == EncodingResult(None, NotAvailableOrNoPhoto)
    // An encoding is returned exactly when the library finds at least one face,
    // and it is the first one.
    ensures r.encoding.Some? <==>
      lib.available && Truthy(photo) && lib.faceEncodings(photo).Ok? && |lib.faceEncodings(photo).value| > 0
    ensures r.encoding.Some? ==>
      r.encoding.value == lib.faceEncodings(photo).value[0] && r.message == EncodingGenerated
    // No face, or a library error, gives no encoding and says why.
    ensures lib.available && Truthy(photo) && lib.faceEncodings(photo) == Ok([]) ==>
      r == EncodingResult(None, NoFaceFound)
    ensures lib.available && Truthy(photo) && lib.faceEncodings(photo).Err? ==>
      r == EncodingResult(None, PhotoErrorPrefix + lib.faceEncodings(photo).error)
  {
    if !lib.available || !Truthy(photo) then EncodingResult(None, NotAvailableOrNoPhoto)
    else match lib.faceEncodings(photo)
      case Err(e) => EncodingResult(None, PhotoErrorPrefix + e)
      case Ok(faces) =>
        if |faces| > 0 then EncodingResult(Some(faces[0]), EncodingGenerated)
        else EncodingResult(None, NoFaceFound)
  }

  /** With no library or no photo, the encoder's result does not depend on the
      library's functions at all: they are never consulted. */
  lemma EncoderSkipsLibraryWhenDisabled(lib: FaceLibrary, other: FaceLibrary, photo: seq<bv8>)
    requires !lib.available || !Truthy(photo)
    requires other.available == lib.available
    ensures FaceEncodingFromPhoto(lib, photo) == FaceEncodingFromPhoto(other, photo)
  {
  }

  /** `recognize_face`: whether the current photo shows the student whose
      encoding is stored in `known` (the database BLOB). */
  function RecognizeFace(lib: FaceLibrary, known: seq<bv8>, current: seq<bv8>): (r: Recognition)
    // The guards, in their order: availability, stored encoding, current photo.
    ensures !lib.available ==> r == Recognition(false, NotAvailable)
    ensures lib.available && !Truthy(known) ==> r == Recognition(false, NoRegisteredFace)
    ensures lib.available && Truthy(known) && !Truthy(current) ==> r == Recognition(false, NoCurrentPhoto)
    // A stored blob numpy cannot read is an error, before the photo is looked at.
    ensures lib.available && Truthy(known) && Truthy(current) && FromBuffer(known).Err? ==>
      r == Recognition(false, RecognitionErrorPrefix + SizeError)
    // No face in the current photo: refused, with the encoder's reason.
    ensures lib.available && Truthy(known) && Truthy(current) && FromBuffer(known).Ok?
            && FaceEncodingFromPhoto(lib, current).encoding.None? ==>
      r == Recognition(false, NoFaceDetectedPrefix + FaceEncodingFromPhoto(lib, current).message)
    // The comparison raises: refused, with the exception's text.
    ensures lib.available && Truthy(known) && Truthy(current) && FromBuffer(known).Ok?
            && FaceEncodingFromPhoto(lib, current).encoding.Some?
            && lib.compareFaces(FromBuffer(known).value, FaceEncodingFromPhoto(lib, current).encoding.value).Err? ==>
      r == Recognition(false, RecognitionErrorPrefix
                              + lib.compareFaces(FromBuffer(known).value, FaceEncodingFromPhoto(lib, current).encoding.value).error)
    // The comparison says the faces differ: refused, asking for another try.
    ensures lib.available && Truthy(known) && Truthy(current) && FromBuffer(known).Ok?
            && FaceEncodingFromPhoto(lib, current).encoding.Some?
            && lib.compareFaces(FromBuffer(known).value, FaceEncodingFromPhoto(lib, current).encoding.value) == Ok(false) ==>
      r == Recognition(false, FaceNotRecognized)
    // Fail closed: a match only when every guard passes, a face is found and
    // the library says the two encodings match.
    ensures r.matched <==>
      lib.available && Truthy(known) && Truthy(current) && FromBuffer(known).Ok?
      && FaceEncodingFromPhoto(lib, current).encoding.Some?
      && lib.compareFaces(FromBuffer(known).value, FaceEncodingFromPhoto(lib, current).encoding.value) == Ok(true)
    ensures r.matched <==> r.message == FaceRecognized
  {
    if !lib.available then Recognition(false, NotAvailable)
    else if !Truthy(known) then Recognition(false, NoRegisteredFace)
    else if !Truthy(current) then Recognition(false, NoCurrentPhoto)
    else match FromBuffer(known)
      case Err(e) => Recognition(false, RecognitionErrorPrefix + e)
      case Ok(knownEncoding) =>
        var found := FaceEncodingFromPhoto(lib, current);
        if found.encoding.None? then Recognition(false, NoFaceDetectedPrefix + found.message)
        else match lib.compareFaces(knownEncoding, found.encoding.value)
          case Err(e) => Recognition(false, RecognitionErrorPrefix + e)
          case Ok(same) =>
            if same then Recognition(true, FaceRecognized) else Recognition(false, FaceNotRecognized)
  }

  /** A student without stored face data is refused before the photo is
      encoded or compared: the library's functions play no part. */
  lemma NoStoredFaceSkipsPhoto(lib: FaceLibrary, other: FaceLibrary, current: seq<bv8>)
    requires other.available == lib.available
    ensures RecognizeFace(lib, [], current) == RecognizeFace(other, [], current)
    ensures !RecognizeFace(lib, [], current).matched
  {
  }

  /** Without a current photo the stored encoding is never read: any two
      stored blobs give the same refusal. */
  lemma NoCurrentPhotoSkipsStored(lib: FaceLibrary, known1: seq<bv8>, known2: seq<bv8>)
    requires Truthy(known1) && Truthy(known2)
    ensures RecognizeFace(lib, known1, []) == RecognizeFace(lib, known2, [])
    ensures !RecognizeFace(lib, known1, []).matched
  {
  }

  /** Enrolment followed by attendance: when the encoding taken from the
      registration photo is stored with `tobytes()`, and the library matches it
      against the first face of the attendance photo, the student is recognised. */
  lemma EnrolledFaceRecognized(lib: FaceLibrary, registrationPhoto: seq<bv8>, current: seq<bv8>)
    requires FaceEncodingFromPhoto(lib, registrationPhoto).encoding.Some?
    requires |FaceEncodingFromPhoto(lib, registrationPhoto).encoding.value| > 0
    requires FaceEncodingFromPhoto(lib, current).encoding.Some?
    requires lib.compareFaces(FaceEncodingFromPhoto(lib, registrationPhoto).encoding.value,
                              FaceEncodingFromPhoto(lib, current).encoding.value) == Ok(true)
    ensures RecognizeFace(lib, ToBuffer(FaceEncodingFromPhoto(lib, registrationPhoto).encoding.value), current)
            == Recognition(true, FaceRecognized)
  {
    FromBufferToBuffer(FaceEncodingFromPhoto(lib, registrationPhoto).encoding.value);
  }

  const InvalidRequest := "Invalid payment request"
  const InvalidAmount := "Invalid amount"
  const PaymentSuccessful := "Payment successful"
  const PaymentFailed := "Payment failed"

  /** `process_payment`: checks the request, then picks the outcome at random
      (any choice between "success" and "failure"). An amount of 0 is falsy in
      Python and is caught by the first check. */
  method ProcessPayment(amount: int, token: string) returns (status: string, message: string)
    ensures amount == 0 || !Truthy(token) ==> status == "failure" && message == InvalidRequest
    ensures amount < 0 && Truthy(token) ==> status == "failure" && message == InvalidAmount
    ensures amount > 0 && Truthy(token) ==> status in ["success", "failure"]
    ensures amount > 0 && Truthy(token) ==> (message == PaymentSuccessful <==> status == "success")
    ensures amount > 0 && Truthy(token) && status == "failure" ==> message == PaymentFailed
    // Only a valid request can succeed.
    ensures status == "success" ==> amount > 0 && Truthy(token)
  {
    if amount == 0 || !Truthy(token) {
      return "failure", InvalidRequest;
    }
    if amount <= 0 {
      return "failure", InvalidAmount;
    }
    status :| status in ["success", "failure"];
    message := if status == "success" then PaymentSuccessful else PaymentFailed;
  }
}
