/**
 * The `ERRORS` table: the human-readable description of each protocol error
 * code, keyed by the code's absolute value k (the server answers -k).
 */
module Errors {

  import opened Wire
  import Retry

  function DigitChar(d: nat): (c: char)
    requires d < 10
  {
    "0123456789"[d]
  }

  /** The decimal digits of `n`, as JavaScript's string concatenation writes a number. */
  function Decimal(n: nat): (s: string)
    decreases n
  {
    if n < 10 then [DigitChar(n)] else Decimal(n / 10) + [DigitChar(n % 10)]
  }

  /**
   * The head of entry k of the table: the code's mnemonic followed by the
   * code itself in parentheses, up to the colon.
   */
  function Heading(k: int): (h: string) {
    match k
    case 1 => "EINTERNAL (-1)"
    case 2 => "EARGS (-2)"
    case 3 => "EAGAIN (-3)"
    case 4 => "ERATELIMIT (-4)"
    case 5 => "EFAILED (-5)"
    case 6 => "ETOOMANY (-6)"
    case 7 => "ERANGE (-7)"
    case 8 => "EEXPIRED (-8)"
    case 9 => "ENOENT (-9)"
    case 10 => "ECIRCULAR (-10)"
    case 11 => "EACCESS (-11)"
    case 12 => "EEXIST (-12)"
    case 13 => "EINCOMPLETE (-13)"
    case 14 => "EKEY (-14)"
    case 15 => "ESID (-15)"
    case 16 => "EBLOCKED (-16)"
    case 17 => "EOVERQUOTA (-17)"
    case 18 => "ETEMPUNAVAIL (-18)"
    case _ => ""
  }

  /** The rest of entry k of the table, from the colon on. */
  function Detail(k: int): (d: string) {
    match k
    case 1 => ": An internal error has occurred. Please submit a bug report, detailing the exact circumstances in which this error occurred."
    case 2 => ": You have passed invalid arguments to this command."
    case 3 => ": A temporary congestion or server malfunction prevented your request from being processed. No data was altered. Retried "
              + Decimal(Retry.MaxRetries) + " times."
    case 4 => ": You have exceeded your command weight per time quota. Please wait a few seconds, then try again (this should never happen in sane real-life applications)."
    case 5 => ": The upload failed. Please restart it from scratch."
    case 6 => ": Too many concurrent IP addresses are accessing this upload target URL."
    case 7 => ": The upload file packet is out of range or not starting and ending on a chunk boundary."
    case 8 => ": The upload target URL you are trying to access has expired. Please request a fresh one."
    case 9 => ": Object (typically, node or user) not found. Wrong password?"
    case 10 => ": Circular linkage attempted"
    case 11 => ": Access violation (e.g., trying to write to a read-only share)"
    case 12 => ": Trying to create an object that already exists"
    case 13 => ": Trying to access an incomplete resource"
    case 14 => ": A decryption operation failed (never returned by the API)"
    case 15 => ": Invalid or expired user session, please relogin"
    case 16 => ": User blocked"
    case 17 => ": Request over quota"
    case 18 => ": Resource temporarily not available, please try again later"
    case _ => ""
  }

  /** `ERRORS[k]`: the description of code -k, or `None` (`undefined`) outside the table. */
  function Message(k: int): (m: Option<string>)
    ensures m.Some? <==> 1 <= k <= 18
  {
    if 1 <= k <= 18 then Some(Heading(k) + Detail(k)) else None
  }

  /**
   * An independent reading of a description: the number written as `(-digits)`
   * at the first `(-` in `s`, when at least one digit and a `)` follow it.
   */
  function CodeTag(s: string): (tag: Option<nat>) {
    TagFrom(s, 0)
  }

  function TagFrom(s: string, i: nat): (tag: Option<nat>)
    decreases |s| - i
  {
    if i + 1 >= |s| then None
    else if s[i] == '(' && s[i + 1] == '-' then DigitsFrom(s, i + 2, 0, 0)
    else TagFrom(s, i + 1)
  }

  function DigitsFrom(s: string, j: nat, acc: nat, count: nat): (tag: Option<nat>)
    decreases |s| - j
  {
    if j >= |s| then None
    else if s[j] == ')' then (if count > 0 then Some(acc) else None)
    else if '0' <= s[j] <= '9' then DigitsFrom(s, j + 1, acc * 10 + (s[j] as int - '0' as int), count + 1)
    else None
  }

  lemma {:induction false} DigitsFromAppend(s: string, t: string, j: nat, acc: nat, count: nat)
    requires DigitsFrom(s, j, acc, count).Some?
    ensures DigitsFrom(s + t, j, acc, count) == DigitsFrom(s, j, acc, count)
    decreases |s| - j
  {
    if s[j] != ')' {
      DigitsFromAppend(s, t, j + 1, acc * 10 + (s[j] as int - '0' as int), count + 1);
    }
  }

  /** A code tag found in a prefix is the code tag of the whole string. */
  lemma {:induction false} TagFromAppend(s: string, t: string, i: nat)
    requires TagFrom(s, i).Some?
    ensures TagFrom(s + t, i) == TagFrom(s, i)
    decreases |s| - i
  {
    if s[i] == '(' && s[i + 1] == '-' {
      DigitsFromAppend(s, t, i + 2, 0, 0);
    } else {
      TagFromAppend(s, t, i + 1);
    }
  }

  /** Every entry of the table names its own code: heading k reads `(-k)`. */
  lemma HeadingNamesCode(k: int)
    requires 1 <= k <= 18
    ensures CodeTag(Heading(k)) == Some(k)
  {
    if k <= 6 {
      HeadingsNameCodesFrom1(k);
    } else if k <= 12 {
      HeadingsNameCodesFrom7(k);
    } else {
      HeadingsNameCodesFrom13(k);
    }
  }

  // The 18 headings are checked in three groups of six: each case makes the
  // solver evaluate the parser over one string literal, and all 18 cases in a
  // single lemma exceed the proof budget.

  lemma HeadingsNameCodesFrom1(k: int)
    requires 1 <= k <= 6
    ensures CodeTag(Heading(k)) == Some(k)
  {
    match k
    case 1 =>
      assert TagFrom(Heading(1), 4) == Some(1);
      assert CodeTag(Heading(1)) == Some(1);
    case 2 =>
      assert TagFrom(Heading(2), 4) == Some(2);
      assert CodeTag(Heading(2)) == Some(2);
    case 3 =>
      assert TagFrom(Heading(3), 4) == Some(3);
      assert CodeTag(Heading(3)) == Some(3);
    case 4 =>
      assert TagFrom(Heading(4), 4) == Some(4);
      assert CodeTag(Heading(4)) == Some(4);
    case 5 =>
      assert TagFrom(Heading(5), 4) == Some(5);
      assert CodeTag(Heading(5)) == Some(5);
    case 6 =>
      assert TagFrom(Heading(6), 4) == Some(6);
      assert CodeTag(Heading(6)) == Some(6);
  }

  lemma HeadingsNameCodesFrom7(k: int)
    requires 7 <= k <= 12
    ensures CodeTag(Heading(k)) == Some(k)
  {
    match k
    case 7 =>
      assert TagFrom(Heading(7), 4) == Some(7);
      assert CodeTag(Heading(7)) == Some(7);
    case 8 =>
      assert TagFrom(Heading(8), 4) == Some(8);
      assert CodeTag(Heading(8)) == Some(8);
    case 9 =>
      assert TagFrom(Heading(9), 4) == Some(9);
      assert CodeTag(Heading(9)) == Some(9);
    case 10 =>
      assert TagFrom(Heading(10), 4) == Some(10);
      assert CodeTag(Heading(10)) == Some(10);
    case 11 =>
      assert TagFrom(Heading(11), 4) == Some(11);
      assert CodeTag(Heading(11)) == Some(11);
    case 12 =>
      assert TagFrom(Heading(12), 4) == Some(12);
      assert CodeTag(Heading(12)) == Some(12);
  }

  lemma HeadingsNameCodesFrom13(k: int)
    requires 13 <= k <= 18
    ensures CodeTag(Heading(k)) == Some(k)
  {
    match k
    case 13 =>
      assert TagFrom(Heading(13), 4) == Some(13);
      assert CodeTag(Heading(13)) == Some(13);
    case 14 =>
      assert TagFrom(Heading(14), 4) == Some(14);
      assert CodeTag(Heading(14)) == Some(14);
    case 15 =>
      assert TagFrom(Heading(15), 4) == Some(15);
      assert CodeTag(Heading(15)) == Some(15);
    case 16 =>
      assert TagFrom(Heading(16), 4) == Some(16);
      assert CodeTag(Heading(16)) == Some(16);
    case 17 =>
      assert TagFrom(Heading(17), 4) == Some(17);
      assert CodeTag(Heading(17)) == Some(17);
    case 18 =>
      assert TagFrom(Heading(18), 4) == Some(18);
      assert CodeTag(Heading(18)) == Some(18);
  }

  /** The description of code -k is defined exactly for k = 1..18 and names `(-k)`. */
  lemma MessageNamesItsCode(k: int)
    requires 1 <= k <= 18
    ensures Message(k).Some? && CodeTag(Message(k).value) == Some(k)
  {
    HeadingNamesCode(k);
    TagFromAppend(Heading(k), Detail(k), 0);
  }
}
