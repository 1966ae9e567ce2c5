/**
 * The ASCII control-code tables of the console client and the lookups over
 * them (zagreus/client.py, lines 17-41 and 94-98).
 *
 * Position i of each table describes the control code chr(i): TableLower
 * holds the key that, pressed with Ctrl, gives chr(i); TableUpper holds the
 * shifted spelling of that key; TableNames is how a control code is shown.
 */
module Keys {
  import opened Wrappers

  /** TABLE_LOWER (client.py:18) */
  const TableLower: string := "2abcdefghijklmnopqrstuvwxyz[\\]6-"
  /** TABLE_UPPER (client.py:19) */
  const TableUpper: string := "@ABCDEFGHIJKLMNOPQRSTUVWXYZ{|}^_"
  /** TABLE_NAMES (client.py:20) */
  const TableNames: string := "@ABCDEFGHIJKLMNOPQRSTUVWXYZ[\\]^_"

  /** The number of control codes; every table has this length. */
  const ControlCodes: nat := 32

  const Del: char := 0x7F as char
  const Backspace: char := 0x08 as char

  ghost predicate Distinct(s: string)
  {
    forall i, j :: 0 <= i < j < |s| ==> s[i] != s[j]
  }

  /** `s.index(c)`: the first position of c in s, or None where Python raises ValueError. */
  function IndexOf(s: string, c: char): (r: Option<nat>)
    ensures r.None? <==> c !in s
    ensures r.Some? ==> r.value < |s| && s[r.value] == c && c !in s[..r.value]
  {
    if s == [] then None
    else if s[0] == c then Some(0)
    else
      match IndexOf(s[1..], c)
      case None => None
      case Some(i) =>
        assert s[1..][..i] == s[1..i + 1];
        Some(i + 1)
  }

  /** In a table without repeats the index of the character at position k is k. */
  lemma IndexOfDistinct(s: string, k: nat)
    requires Distinct(s) && k < |s|
    ensures IndexOf(s, s[k]) == Some(k)
  {
  }

  /** The position of c in TableLower, written out by character class (32 when absent). */
  function LowerRank(c: char): int
  {
    if c == '2' then 0
    else if 'a' <= c <= 'z' then c as int - 'a' as int + 1
    else if c == '[' then 27 else if c == '\\' then 28 else if c == ']' then 29
    else if c == '6' then 30 else if c == '-' then 31 else 32
  }

  /** The position of c in TableUpper, written out by character class (32 when absent). */
  function UpperRank(c: char): int
  {
    if c == '@' then 0
    else if 'A' <= c <= 'Z' then c as int - 'A' as int + 1
    else if c == '{' then 27 else if c == '|' then 28 else if c == '}' then 29
    else if c == '^' then 30 else if c == '_' then 31 else 32
  }

  lemma LowerRanks(i: int)
    requires 0 <= i < ControlCodes
    ensures LowerRank(TableLower[i]) == i
  {
  }

  lemma UpperRanks(i: int)
    requires 0 <= i < ControlCodes
    ensures UpperRank(TableUpper[i]) == i
  {
  }

  lemma NamedLetters(i: int)
    requires 1 <= i <= 26
    ensures TableNames[i] as int == 'A' as int + i - 1
  {
  }

  lemma TablesDistinct()
    ensures |TableLower| == |TableUpper| == |TableNames| == ControlCodes
    ensures Distinct(TableLower) && Distinct(TableUpper)
  {
    LowerDistinct();
    UpperDistinct();
  }

  lemma LowerDistinct()
    ensures Distinct(TableLower)
  {
    forall i, j | 0 <= i < j < |TableLower|
      ensures TableLower[i] != TableLower[j]
    {
      LowerRanks(i);
      LowerRanks(j);
    }
  }

  lemma UpperDistinct()
    ensures Distinct(TableUpper)
  {
    forall i, j | 0 <= i < j < |TableUpper|
      ensures TableUpper[i] != TableUpper[j]
    {
      UpperRanks(i);
      UpperRanks(j);
    }
  }

  /**
   * control (client.py:22-31): the control code whose key is c, looked up in
   * TableLower first and then in TableUpper.  A character in neither table is
   * a failure (the source raises).
   */
  function Control(c: char): (r: Option<char>)
    ensures r.Some? <==> c in TableLower || c in TableUpper
    ensures r.Some? ==> r.value as int < ControlCodes
    ensures c in TableLower ==> r.Some? && TableLower[r.value as int] == c
    ensures c !in TableLower && c in TableUpper ==> r.Some? && TableUpper[r.value as int] == c
  {
    match IndexOf(TableLower, c)
    case Some(i) => Some(i as char)
    case None =>
      match IndexOf(TableUpper, c)
      case Some(i) => Some(i as char)
      case None => None
  }

  /** `str.lower()` on ASCII letters. */
  function Lower(c: char): char
  {
    if 'A' <= c <= 'Z' then (c as int + 32) as char else c
  }

  /** `str.upper()` on ASCII letters. */
  function Upper(c: char): char
  {
    if 'a' <= c <= 'z' then (c as int - 32) as char else c
  }

  /**
   * base_key (client.py:33-36): for a control code, the key it is typed
   * with, which control maps back to it (see ControlOfBaseKey); for any other
   * character the same key, never an upper-case letter.
   */
  function BaseKey(c: char): (k: char)
    ensures (c as int) >= ControlCodes ==> !('A' <= k <= 'Z') && Upper(k) == Upper(c)
  {
    if (c as int) < |TableLower| then TableLower[c as int] else Lower(c)
  }

  /**
   * pretty_key (client.py:38-41): a control code is shown as "C-" and one
   * more character, the capital letter for codes 1 to 26; any other
   * character is shown as itself, never as a lower-case letter.
   */
  function PrettyKey(c: char): (r: string)
    ensures (c as int) < ControlCodes ==> |r| == 3 && r[..2] == "C-"
    ensures 1 <= c as int <= 26 ==> r[2] as int == 'A' as int + c as int - 1
    ensures (c as int) >= ControlCodes ==> |r| == 1 && !('a' <= r[0] <= 'z') && Lower(r[0]) == Lower(c)
  {
    if (c as int) < |TableNames| then "C-" + [TableNames[c as int]] else [Upper(c)]
  }

  /** getkey (client.py:94-98): the DEL that the backspace key yields is reported as BS; every other key as itself. */
  function GetKey(c: char): (k: char)
    ensures k != Del
    ensures c == Del ==> k == Backspace
    ensures c != Del ==> k == c
  {
    if c == Del then Backspace else c
  }

  /** base_key undoes control on every key of TableLower. */
  lemma BaseKeyOfControl(c: char)
    requires c in TableLower
    ensures Control(c).Some? && BaseKey(Control(c).value) == c
  {
  }

  /** Whatever the key, the name pretty_key shows is printable: it holds no control code. */
  lemma PrettyKeyPrintable(c: char)
    ensures forall i :: 0 <= i < |PrettyKey(c)| ==> PrettyKey(c)[i] as int >= ControlCodes
  {
    if (c as int) < ControlCodes {
      assert forall i :: 0 <= i < ControlCodes ==> TableNames[i] as int >= ControlCodes;
    }
  }

  /** control undoes base_key on every control code. */
  lemma ControlOfBaseKey(k: char)
    requires (k as int) < ControlCodes
    ensures Control(BaseKey(k)) == Some(k)
  {
    LowerDistinct();
    IndexOfDistinct(TableLower, k as int);
  }

  /** A control code typed as Ctrl and a letter is shown as "C-" and that letter in upper case. */
  lemma PrettyKeyOfControlLetter(c: char)
    requires 'a' <= c <= 'z'
    ensures Control(c).Some? && PrettyKey(Control(c).value) == "C-" + [Upper(c)]
  {
    var i := c as int - 'a' as int + 1;
    assert IndexOf(TableLower, c) == Some(i) by {
      LowerRanks(i);
      assert TableLower[i] == c;
      LowerDistinct();
      IndexOfDistinct(TableLower, i);
    }
    assert Control(c) == Some(i as char);
    NamedLetters(i);
  }
}
