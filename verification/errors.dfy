/**
 * The rejection message of `CardNotAllowedError` (maumau/errors.py).
 *
 * The error picks one of three messages from the card played, the card on
 * top of the table and the face currently required.
 */
module Errors {
  import opened Cards

  /** Which of the three messages is chosen. */
  datatype Reason =
    | NotAllowed       // "You are not allowed to play <card>!"
    | FaceExpected     // "... because face <face> is expected!"
    | MatchesNeither   // "... because it matches neither last card <top>'s face nor rank!"

  /** The message selection of `CardNotAllowedError.__init__`. */
  function ReasonFor(card: Card, last: Card, nextFace: Symbol): (r: Reason)
    ensures r == FaceExpected <==> nextFace != last.face && nextFace != card.face
    ensures r == MatchesNeither <==>
      (nextFace == last.face || nextFace == card.face) && last.rank != card.rank && last.face != card.face
    ensures r == NotAllowed <==>
      (nextFace == last.face || nextFace == card.face) && (last.rank == card.rank || last.face == card.face)
  {
    if nextFace != last.face && nextFace != card.face then FaceExpected
    else if last.rank != card.rank && last.face != card.face then MatchesNeither
    else NotAllowed
  }

  /** The text of the chosen message; a face is shown by its label. */
  function Message(card: Card, last: Card, nextFace: Symbol): (m: string)
    ensures |m| > |"You are not allowed to play " + CardText(card)|
    ensures m[..|"You are not allowed to play " + CardText(card)|] == "You are not allowed to play " + CardText(card)
  {
    var head := "You are not allowed to play " + CardText(card);
    var tail :=
      match ReasonFor(card, last, nextFace)
      case NotAllowed => "!"
      case FaceExpected => " because face " + LabelText(nextFace.symbol) + " is expected!"
      case MatchesNeither => " because it matches neither last card " + CardText(last) + "'s face nor rank!";
    head + tail
  }
}
