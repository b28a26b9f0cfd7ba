/** The persisted document of the hub and the file cell that holds it
    (app.py `load_data` / `save_data`). The file is abstracted to a cell that
    is either absent or holds one whole document; JSON encoding is not modelled. */
module Store {

  datatype Option<T> = None | Some(value: T)

  /** One submitted daily challenge: the prompt shown and the user's answer. */
  datatype ChallengeResponse = ChallengeResponse(challenge: string, response: string)

  /** The whole persisted document: both collections are always present. */
  datatype Document = Document(challenges: seq<ChallengeResponse>, journal: seq<string>)

  /** The default used when there is no backing file. */
  const EmptyDocument: Document := Document([], [])

  /** `load_data`: the stored document verbatim, or the empty default when
      the backing file does not exist. */
  function LoadData(file: Option<Document>): (d: Document)
    ensures file.None? ==> d.challenges == [] && d.journal == []
    ensures file.Some? ==> d == file.value
  {
    match file
    case None => EmptyDocument
    case Some(stored) => stored
  }

  /** `save_data`: overwrite the whole backing file with `d`. Loading what was
      saved gives back exactly `d`, whatever the file held before. */
  function SaveData(d: Document): (file: Option<Document>)
    ensures file.Some?
    ensures LoadData(file) == d
  {
    Some(d)
  }
}
