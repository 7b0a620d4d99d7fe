/**
 * The Tailwind class names the views colour scores, priorities and statuses
 * with, and the two classifiers that several components share word for word:
 * `getScoreColor` and `getPriorityColor`.
 */
module Styles {

  const GreenText := "text-green-600"
  const BlueText := "text-blue-600"
  const YellowText := "text-yellow-600"
  const RedText := "text-red-600"

  const GrayBadge := "bg-gray-100 text-gray-800"
  const GreenBadge := "bg-green-100 text-green-800"
  const BlueBadge := "bg-blue-100 text-blue-800"
  const YellowBadge := "bg-yellow-100 text-yellow-800"
  const RedBadge := "bg-red-100 text-red-800"
  const PurpleBadge := "bg-purple-100 text-purple-800"
  const OrangeBadge := "bg-orange-100 text-orange-800"

  /** `getScoreColor`: four bands, each lower boundary (90, 80, 70) belonging to the upper band. */
  function ScoreColor(score: int): (c: string)
    ensures c == GreenText <==> 90 <= score
    ensures c == BlueText <==> 80 <= score < 90
    ensures c == YellowText <==> 70 <= score < 80
    ensures c == RedText <==> score < 70
  {
    if score >= 90 then GreenText
    else if score >= 80 then BlueText
    else if score >= 70 then YellowText
    else RedText
  }

  /** How good a score colour is: red 0, yellow 1, blue 2, green 3. */
  function ScoreRank(c: string): int {
    if c == GreenText then 3 else if c == BlueText then 2 else if c == YellowText then 1 else 0
  }

  /** A higher score never gets a worse colour. */
  lemma ScoreColorMonotone(a: int, b: int)
    requires a <= b
    ensures ScoreRank(ScoreColor(a)) <= ScoreRank(ScoreColor(b))
  {
  }

  /** `getPriorityColor`: high red, medium yellow, low green, anything else gray. */
  function PriorityColor(priority: string): (c: string)
    ensures c == RedBadge <==> priority == "high"
    ensures c == YellowBadge <==> priority == "medium"
    ensures c == GreenBadge <==> priority == "low"
    ensures c == GrayBadge <==> priority !in {"high", "medium", "low"}
  {
    match priority
    case "high" => RedBadge
    case "medium" => YellowBadge
    case "low" => GreenBadge
    case _ => GrayBadge
  }

  /** The three priorities a record can carry. */
  datatype Priority = Low | Medium | High

  function PriorityName(p: Priority): string {
    match p
    case Low => "low"
    case Medium => "medium"
    case High => "high"
  }

  /** Every declared priority gets its own colour and none of them is the gray default. */
  lemma PriorityColorsDistinct(p: Priority, q: Priority)
    ensures PriorityColor(PriorityName(p)) != GrayBadge
    ensures p != q ==> PriorityColor(PriorityName(p)) != PriorityColor(PriorityName(q))
  {
  }
}
