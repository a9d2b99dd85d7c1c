# Student portal: registration checks, grading, face verification and payment guards

This project models, in Dafny, the decision logic of a student-portal web
application: the ordered validation of the registration form and the course
grading ladder (`utils.py`), and the face enrolment / attendance verification
flow plus the request checks of the dummy payment (`features.py`).

The `face_recognition` library is abstract. A `FaceLibrary` value holds:
- `available`: the import-time flag `FACE_RECOGNITION_AVAILABLE`;
- `faceEncodings`: image loading plus face encoding, one encoding per detected face, in the library's order;
- `compareFaces`: the tolerance-0.5 distance test.

Both functions are total and return a `Result`. An `Err` stands for an
exception the library raises, and its text is what `{e}` prints.

The stored face BLOB is modelled at the byte level. `np.frombuffer` splits the
BLOB into 8-byte float64 elements and fails with numpy's `ValueError` when the
length is not a multiple of 8. `ToBuffer` is its inverse, `ndarray.tobytes()`,
which the caller uses to store an encoding. Reading the 8 bytes as a double is
left to the abstract library.

Python's falsy `None` and falsy empty `str`/`bytes` take the same branch in
every function here, so both are modelled as the empty sequence. The amount `0`
also stands for a `None` amount.

Modules: `Wrappers` (Option, Result, truthiness), `Utils` (utils.py),
`Float64Buffer` (the BLOB format), `Features` (features.py).

## Model

| member | source | states |
|---|---|---|
| Utils.FirstMissingNoneIffAllPresent | utils.py:14-30 | the ordered validator returns `None` exactly when every check passes |
| Utils.FirstMissingReportsEarliest | utils.py:14-29 | when check k fails and all before it pass, the message is check k's, whatever the later checks hold |
| Utils.FirstMissingFromFailedCheck | utils.py:14-29 | every reported message belongs to a check that failed |
| Utils.RegistrationChecks | utils.py:14-29 | the eight fields become eight checks in the source's order (name, roll number, e-mail, slot, contact, course, favourite teacher, photo), check k carrying the k-th fixed message |
| Utils.ValidateInput | utils.py:12-30 | `None` exactly when all eight fields are non-empty; otherwise one of the eight fixed messages; it is the ordered validator `FirstMissing` (the early-return chain) applied to `RegistrationChecks` |
| Utils.EarliestEmptyFieldReported | utils.py:14-29 | with several fields empty, the message is the earliest empty field's, in the order name, roll number, e-mail, slot, contact, course, favourite teacher, photo |
| Utils.EmptyNameReportedFirst | utils.py:14-15 | an empty name gives "Please enter your name." whatever the other fields hold |
| Utils.OnlyPhotoMissing | utils.py:28-29 | when the photo is the only empty field, the result is "Please upload a photo." |
| Utils.Course.GetGrade | utils.py:37-47 | the result is one of A, B, C, D, F; A exactly for marks >= 90, B for 80..89, C for 70..79, D for 60..69, F below 60 |
| Utils.GradeMonotone | utils.py:37-47 | more marks never give a worse grade |
| Float64Buffer.Chunks | features.py:58 | a whole number of 8-byte groups becomes that many elements, element i being bytes 8i..8i+7 |
| Float64Buffer.FromBuffer | features.py:58 | `np.frombuffer` fails with numpy's size error exactly when the length is not a multiple of 8; otherwise it returns length/8 elements |
| Float64Buffer.ToBuffer | features.py:44 | the stored BLOB of an encoding has 8 bytes per element |
| Float64Buffer.FromBufferToBuffer | features.py:44-58 | reading back a stored encoding gives the stored encoding |
| Float64Buffer.ToBufferFromBuffer | features.py:58 | every BLOB `np.frombuffer` accepts is the serialisation of what it returns |
| Features.FaceEncodingFromPhoto | features.py:18-39 | no library or no photo gives `(None, "...not available or no photo provided.")`; an encoding exactly when the library finds a face, and then the first one; no face gives "No face found..."; a library error gives `None` and "Error processing photo for face recognition: " + the error |
| Features.EncoderSkipsLibraryWhenDisabled | features.py:23-24 | with no library or no photo the result is the same whatever the library's functions do, so they are never consulted |
| Features.RecognizeFace | features.py:41-76 | guards in order (availability, stored encoding, current photo), each with its message; an unreadable BLOB is an error before the photo is encoded; no face gives "Could not detect face in current photo: " + the encoder's message; a comparison that raises gives "Error during face recognition: " + its error; a non-match gives "Face not recognized. Please try again."; `True` exactly when every guard passes, a face is found and the library matches; the message is "Face recognized successfully." exactly when the result is `True` |
| Features.NoStoredFaceSkipsPhoto | features.py:50-51 | with no stored face data the result is `False` and does not depend on the library's encoder or comparison |
| Features.NoCurrentPhotoSkipsStored | features.py:53-58 | with no current photo the result is `False` and the same for any stored BLOB, so the BLOB is never deserialised |
| Features.EnrolledFaceRecognized | features.py:56-71 | an encoding stored with `tobytes()` and matched by the library against the attendance photo's first face is recognised |
| Features.ProcessPayment | features.py:79-97 | a zero amount or empty token gives ("failure", "Invalid payment request"); a negative amount gives ("failure", "Invalid amount"); otherwise the status is "success" or "failure" and the message is "Payment successful" exactly when the status is "success"; only a valid request succeeds |

## Left out

- Features.ProcessPayment: `random.choice` is modelled as a nondeterministic choice between the two statuses, not as a probability.
- Features.RecognizeFace: the Euclidean distance test with tolerance 0.5 and the float64 reading of the stored bytes are floating point; they are inside the abstract `compareFaces`, and a comparison that raises (for example vectors of different lengths) is its `Err` result.
- Features.FaceEncodingFromPhoto: image decoding and face detection are inside the abstract `faceEncodings`; any exception they raise is its `Err` result.
- Float64Buffer.FromBuffer: numpy reads in the host's native byte order; the model keeps each element's 8 bytes unread, so byte order does not arise.
- Utils.Course.GetGrade: marks are integers; float marks are not modelled.
- Features.ProcessPayment: amounts are integers; float amounts are not modelled.
- The import-time `try/except ImportError` and its `st.warning` (features.py:11-16): availability is the `available` field of the library value.
- `generate_id_card` (features.py:100-231): image drawing, font loading, QR code generation and PNG encoding through PIL and qrcode, with no decision logic to state.
- `display_error` and `display_success` (utils.py:4-10): Streamlit UI calls.
- database.py: SQLite connection handling, schema creation, seed data and one lookup query; I/O with no logic of its own.
- The attendance record written by the caller after a successful recognition is not part of this model.
