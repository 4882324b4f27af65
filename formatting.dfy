/**
 * Decimal rendering of a 64-bit id, as C# string interpolation writes a `long`,
 * and the audit-log messages built from it.
 */
module Formatting {
  import opened Entities

  predicate IsDigit(c: char) {
    '0' <= c <= '9'
  }

  predicate AllDigits(s: string) {
    forall i :: 0 <= i < |s| ==> IsDigit(s[i])
  }

  function DigitChar(d: nat): (c: char)
    requires d < 10
    ensures IsDigit(c) && c as int - '0' as int == d
  {
    (d + '0' as int) as char
  }

  /** The decimal digits of `n`, most significant first, with no leading zero. */
  function NatToString(n: nat): (s: string)
    ensures |s| >= 1 && AllDigits(s)
    ensures |s| > 1 ==> s[0] != '0'
    decreases n
  {
    if n < 10 then [DigitChar(n)] else NatToString(n / 10) + [DigitChar(n % 10)]
  }

  /** `long.ToString()`: a leading '-' for a negative number, then its digits. */
  function IntToString(n: int): string {
    if n < 0 then "-" + NatToString(-n) else NatToString(n)
  }

  function ParseNat(s: string): nat
    requires AllDigits(s)
  {
    if s == [] then 0 else ParseNat(s[..|s| - 1]) * 10 + (s[|s| - 1] as int - '0' as int)
  }

  /** The reading of a decimal rendering; the partner of IntToString. */
  function ParseInt(s: string): int {
    if |s| > 0 && s[0] == '-' && AllDigits(s[1..]) then -(ParseNat(s[1..]) as int)
    else if AllDigits(s) then ParseNat(s)
    else 0
  }

  lemma {:induction false} NatRoundTrip(n: nat)
    ensures ParseNat(NatToString(n)) == n
    decreases n
  {
    if n >= 10 {
      var s := NatToString(n);
      NatRoundTrip(n / 10);
      assert s[..|s| - 1] == NatToString(n / 10);
    }
  }

  /** Rendering an id and reading it back gives the id. */
  lemma IntRoundTrip(n: int)
    ensures ParseInt(IntToString(n)) == n
  {
    var s := IntToString(n);
    if n < 0 {
      assert s[1..] == NatToString(-n);
      NatRoundTrip(-n);
    } else {
      NatRoundTrip(n);
    }
  }

  /** Two ids render alike only if they are equal. */
  lemma IntToStringInjective(a: int, b: int)
    requires IntToString(a) == IntToString(b)
    ensures a == b
  {
    IntRoundTrip(a);
    IntRoundTrip(b);
  }

  /** `$"{prefix}'{id}'"`: a message naming an id in quotes. */
  function QuotedIdMessage(prefix: string, id: int): string {
    prefix + "'" + IntToString(id) + "'"
  }

  /** A quoted-id message names its id: equal messages with one prefix have one id. */
  lemma QuotedIdMessageInjective(prefix: string, a: int, b: int)
    requires QuotedIdMessage(prefix, a) == QuotedIdMessage(prefix, b)
    ensures a == b
  {
    var m := QuotedIdMessage(prefix, a);
    var n := |prefix| + 1;
    assert m[n..|m| - 1] == IntToString(a);
    assert QuotedIdMessage(prefix, b)[n..|m| - 1] == IntToString(b);
    IntToStringInjective(a, b);
  }

  /** The text before the quoted id in the message of an entry with this action. */
  function LogPrefix(action: AuditLogAction): string {
    match action
    case Create => "User created with ID "
    case Update => "User updated with ID "
    case Delete => "User deleted with ID "
  }

  /** The message of an audit entry with this action about user `id` (the log service and the seed). */
  function LogMessage(action: AuditLogAction, id: int): string {
    QuotedIdMessage(LogPrefix(action), id)
  }

  /** A log message alone tells the action and the user: equal messages have both equal. */
  lemma LogMessageInjective(a: AuditLogAction, x: int, b: AuditLogAction, y: int)
    requires LogMessage(a, x) == LogMessage(b, y)
    ensures a == b && x == y
  {
    QuotedIdMessageStartsWith(LogPrefix(a), x);
    QuotedIdMessageStartsWith(LogPrefix(b), y);
    assert LogPrefix(a)[5] == LogMessage(a, x)[5] == LogMessage(b, y)[5] == LogPrefix(b)[5];
    LogPrefixNamesAction(a, b);
    QuotedIdMessageInjective(LogPrefix(a), x, y);
  }

  lemma QuotedIdMessageStartsWith(prefix: string, id: int)
    ensures |prefix| < |QuotedIdMessage(prefix, id)|
    ensures QuotedIdMessage(prefix, id)[..|prefix|] == prefix
  {
  }

  /** The three prefixes first differ at position 5: "created", "updated", "deleted". */
  lemma LogPrefixNamesAction(a: AuditLogAction, b: AuditLogAction)
    requires LogPrefix(a)[5] == LogPrefix(b)[5]
    ensures a == b
  {
    assert LogPrefix(Create)[5] == 'c' && LogPrefix(Update)[5] == 'u' && LogPrefix(Delete)[5] == 'd';
  }

  /** The message of UserMissingFromDataContextException. */
  function UserMissingMessage(id: int): string {
    QuotedIdMessage("User with id ", id) + " could not be found in the data context"
  }

  /** The exception's message names the missing id: equal messages have one id. */
  lemma UserMissingMessageInjective(a: int, b: int)
    requires UserMissingMessage(a) == UserMissingMessage(b)
    ensures a == b
  {
    var suffix := " could not be found in the data context";
    var m := UserMissingMessage(a);
    assert m[..|m| - |suffix|] == QuotedIdMessage("User with id ", a);
    assert UserMissingMessage(b)[..|m| - |suffix|] == QuotedIdMessage("User with id ", b);
    QuotedIdMessageInjective("User with id ", a, b);
  }
}
