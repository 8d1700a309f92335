/** The enums and records shared by the parser, the API client and the processor
    (src/types.py). Python's optional fields become Option values. */
module Types {
  import opened Wrappers

  /** PatientLookupStatus folded together with the fields each status carries. */
  datatype PatientLookupResult =
    | Found(patientId: int, doctorId: Option<int>)
    | NotFound
    | MultipleMatches(detail: string)

  /** UploadStatus folded together with the fields each status carries. */
  datatype UploadResult =
    | UploadSucceeded(documentId: Option<int>)
    | UploadRejected(detail: string)

  datatype FileErrorReason =
    | ParseFailed
    | PatientNotFound
    | PatientMultipleMatches
    | Duplicate
    | UploadFailed
    | RateLimited

  datatype FileError = FileError(filename: string, reason: FileErrorReason, detail: Option<string>)

  /** The fields recovered from one filename. `dob` is the ISO date of birth when the
      pattern captured one that decodes. */
  datatype ParsedFilename = ParsedFilename(
    lastName: string,
    firstName: string,
    middleInitial: Option<string>,
    dob: Option<string>,
    tagCode: string,
    tagFull: string,
    date: string,
    description: string)

  /** A text member of a JSON object: the key missing, JSON null, or a string. Python's
      `dict.get` tells the first two apart when it is given a default. */
  datatype JsonText = Absent | Null | Text(text: string)

  /** A patient record as the server returns it in a search result. */
  datatype PatientRecord = PatientRecord(
    id: int,
    doctor: Option<int>,
    firstName: JsonText,
    middleName: JsonText,
    lastName: JsonText,
    dateOfBirth: JsonText)
}
