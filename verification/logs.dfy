/** Agent conversation logs as the analysis scripts read them: a JSON file
    whose `turns` field lists the turns of the conversation, each with a
    `role` and a `content`. Only the parts the scripts look at are kept. */
module Logs {
  import opened Py
  import opened Text

  /** A JSON value, where what matters is whether it is a string, a
      container (a list or an object, which `in` searches for a member or
      key), or an atom (a number, boolean or null, on which `in` raises
      `TypeError`). */
  datatype Value = Str(text: string) | Container | Atom

  /** One element of the `turns` list: an object with optional `role` and
      `content` fields, or any other JSON value. */
  datatype Turn = Turn(role: Option<Value>, content: Option<Value>) | NonObject

  /** The `turns` field of a log: absent, a list, a string or object of the
      given size (iterating it yields strings), or a number, boolean or null. */
  datatype TurnsField = NoTurns | TurnList(turns: seq<Turn>) | TextOrObject(size: nat) | Scalar

  /** A log file as `json.load` leaves it:
      - `Log`: a JSON object;
      - `Unreadable`: a file that cannot be opened (`IOError`) or is not
        valid JSON (`json.JSONDecodeError`);
      - `Undecodable`: bytes that are not valid text, on which reading
        raises `UnicodeDecodeError`, a `ValueError`;
      - `TopSequence`: a top-level list or string, where `holdsTurns` says
        whether `"turns" in data` holds (a list element or a substring);
      - `TopAtom`: a top-level number, boolean or null. */
  datatype LogFile =
    | Log(turns: TurnsField)
    | Unreadable
    | Undecodable
    | TopSequence(holdsTurns: bool)
    | TopAtom

  /** Python's `float(text)`: the number the text denotes, or nothing when
      it raises `ValueError`. Surrounding blanks are accepted by `float`
      itself, so the `strip()` before it changes nothing. */
  type NumberParser = string -> Option<real>

  /** The message the game writes when a task ends. */
  const ScoreMarker := "Task ended with score : "

  /** The message of a task that ended with full marks. */
  const FullScore := ScoreMarker + "1"

  /** The message of a task that ended with no marks. */
  const ZeroScore := ScoreMarker + "0"

  /** The content of a turn whose role is `"system"` and whose content is a
      string; nothing for every other turn. */
  function SystemText(t: Turn): (text: Option<string>)
    ensures text.Some? <==> t.Turn? && t.role == Some(Str("system")) && t.content.Some? && t.content.value.Str?
    ensures text.Some? ==> t.content == Some(Str(text.value))
  {
    if t.Turn? && t.role == Some(Str("system")) && t.content.Some? && t.content.value.Str? then
      Some(t.content.value.text)
    else None
  }

  /** A system turn whose text contains `marker`. */
  predicate Mentions(t: Turn, marker: string)
  {
    SystemText(t).Some? && Contains(SystemText(t).value, marker)
  }

  /** A turn that mentions a message mentions each of its prefixes. */
  lemma MentionsPrefix(t: Turn, marker: string, more: string)
    ensures Mentions(t, marker + more) ==> Mentions(t, marker)
  {
    if Mentions(t, marker + more) {
      ContainsPrefix(SystemText(t).value, marker, more);
    }
  }

  /** The turns of a log whose `turns` field is a list; none otherwise. */
  function ListedTurns(f: LogFile): (ts: seq<Turn>)
    ensures ts != [] ==> f.Log? && f.turns.TurnList? && ts == f.turns.turns
  {
    if f.Log? && f.turns.TurnList? then f.turns.turns else []
  }

  /** Some turn of some file mentions `marker`. */
  predicate AnyMentions(files: seq<LogFile>, marker: string)
  {
    exists i, j | 0 <= i < |files| && 0 <= j < |ListedTurns(files[i])| :: Mentions(ListedTurns(files[i])[j], marker)
  }
}
