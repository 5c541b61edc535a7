/** The field validators of src/validation.rs: total membership tests over fixed
    alphabets, each answering `None` for a valid value and otherwise a warning
    `tr(key) + ": " + value`. The translation lookup `tr` is a parameter here. */
module Validation {
  import opened Text

  /** The text of a validator's warning: the translated key, `": "`, the value. */
  function Message(tr: string -> string, key: string, value: string): (m: string)
    ensures |m| >= |value| && m[|m| - |value|..] == value
    ensures m[..|m| - |value|] == tr(key) + ": "
  {
    tr(key) + ": " + value
  }

  /** The team codes a validator accepts: `L` and `O`, plus `R` for special events. */
  function ValidTeamChars(special: bool): seq<char> {
    ['L', 'O'] + (if special then ['R'] else [])
  }

  function ValidateTeam(team: char, special: bool, tr: string -> string): (r: Option<string>)
    ensures r.None? <==> team == 'L' || team == 'O' || (special && team == 'R')
    ensures r.Some? ==> r.value == Message(tr, "Invalid team value", [team])
  {
    if team !in ValidTeamChars(special) then Some(Message(tr, "Invalid team value", [team]))
    else None
  }

  /** Rust's `char::is_numeric` on ASCII: the decimal digits. */
  predicate IsNumeric(c: char) {
    '0' <= c <= '9'
  }

  function ValidatePlayer(player: string, tr: string -> string): (r: Option<string>)
    requires IsAscii(player)
    ensures r.None? <==> |player| == 2 && IsNumeric(player[0]) && IsNumeric(player[1])
    ensures r.Some? ==> r.value == Message(tr, "Invalid player's number", player)
  {
    if |player| != 2 || !(forall k :: 0 <= k < |player| ==> IsNumeric(player[k])) then
      Some(Message(tr, "Invalid player's number", player))
    else
      None
  }

  function ValidSkills(special: bool): seq<char> {
    if special then ['F', 'T', 'H', 'C'] else ['S', 'R', 'P', 'A', 'B', 'D']
  }

  function ValidateSkill(skill: char, special: bool, tr: string -> string): (r: Option<string>)
    ensures r.None? <==>
      if special then skill in {'F', 'T', 'H', 'C'}
      else skill in {'S', 'R', 'P', 'A', 'B', 'D'}
    ensures r.Some? ==> r.value == Message(tr, "Invalid skill type", [skill])
  {
    if skill !in ValidSkills(special) then Some(Message(tr, "Invalid skill type", [skill]))
    else None
  }

  function ValidEvals(special: bool): seq<char> {
    if special then ['=', '+', '-'] else ['+', '-', '#']
  }

  function ValidateEval(eval: char, special: bool, tr: string -> string): (r: Option<string>)
    ensures r.None? <==>
      if special then eval in {'=', '+', '-'} else eval in {'+', '-', '#'}
    ensures r.Some? ==> r.value == Message(tr, "Invalid eval type", [eval])
  {
    if eval !in ValidEvals(special) then Some(Message(tr, "Invalid eval type", [eval]))
    else None
  }

  function ValidateZone(zone: char, tr: string -> string): (r: Option<string>)
    ensures r.None? <==> zone in {'1', '2', '3', '4', '5', '6', '7', '8', '9'}
    ensures r.Some? ==> r.value == Message(tr, "Invalid zone", [zone])
  {
    if !('1' <= zone <= '9') then Some(Message(tr, "Invalid zone", [zone])) else None
  }

  function ValidateSubzone(subzone: char, tr: string -> string): (r: Option<string>)
    ensures r.None? <==> subzone in {'A', 'B', 'C', 'D', 'E', 'F', 'G', 'H', 'I'}
    ensures r.Some? ==> r.value == Message(tr, "Invalid subzone", [subzone])
  {
    if !('A' <= subzone <= 'I') then Some(Message(tr, "Invalid subzone", [subzone])) else None
  }

  /** A team code valid for normal events is valid for special events too,
      and `R` is the only code the special rule adds. */
  lemma TeamValidityMonotone(team: char, tr: string -> string)
    ensures ValidateTeam(team, false, tr).None? ==> ValidateTeam(team, true, tr).None?
    ensures ValidateTeam(team, true, tr).None? && ValidateTeam(team, false, tr).Some? <==> team == 'R'
  {
  }

  /** No skill code is valid in both modes. */
  lemma SkillAlphabetsDisjoint(skill: char, tr: string -> string)
    ensures !(ValidateSkill(skill, false, tr).None? && ValidateSkill(skill, true, tr).None?)
  {
  }

  /** `+` and `-` are valid in both modes; `#` only for normal events, `=` only for special ones. */
  lemma EvalAlphabetsOverlap(tr: string -> string)
    ensures ValidateEval('+', false, tr).None? && ValidateEval('+', true, tr).None?
    ensures ValidateEval('-', false, tr).None? && ValidateEval('-', true, tr).None?
    ensures ValidateEval('#', false, tr).None? && ValidateEval('#', true, tr).Some?
    ensures ValidateEval('=', false, tr).Some? && ValidateEval('=', true, tr).None?
  {
  }

  /** Zones are `1` to `9`: zone `0` is rejected, and a zone and a subzone
      never share a character. */
  lemma ZoneAndSubzoneAlphabets(c: char, tr: string -> string)
    ensures ValidateZone('0', tr).Some?
    ensures !(ValidateZone(c, tr).None? && ValidateSubzone(c, tr).None?)
  {
  }
}
