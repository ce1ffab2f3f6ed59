/**
 The pure helpers of `server/utils/helpers.js`: the Ethiopian phone number
 check, the input sanitiser and the delivery-day choice. Dates are day
 numbers: the helper's `setDate(getDate() + n)` moves a date by whole
 calendar days.
 */
module Helpers {
  import Text
  import Seqs

  /** The part after the optional prefix: `[97]` and then exactly eight ASCII digits. */
  predicate MobileBody(t: string)
  {
    |t| == 9 && (t[0] == '9' || t[0] == '7') && forall i :: 1 <= i < 9 ==> Text.IsDigit(t[i])
  }

  /** The optional group `(\+251|0)?`. */
  predicate IsPrefix(p: string)
  {
    p == "" || p == "0" || p == "+251"
  }

  /** The language of `/^(\+251|0)?[97]\d{8}$/`: an optional prefix, then a mobile body, then nothing. */
  ghost predicate PhoneLanguage(s: string)
  {
    exists k :: 0 <= k <= |s| && IsPrefix(s[..k]) && MobileBody(s[k..])
  }

  /**
   `validateEthiopianPhone`, read off by length: a bare body has 9
   characters, `0` and a body 10, `+251` and a body 13.
   */
  function ValidateEthiopianPhone(phone: string): (ok: bool)
    ensures ok ==> |phone| == 9 || |phone| == 10 || |phone| == 13
    ensures ok <==> PhoneLanguage(phone)
    ensures |phone| >= 3 && phone[..3] == "251" ==> !ok
  {
    var ok :=
      if |phone| == 13 then phone[..4] == "+251" && MobileBody(phone[4..])
      else if |phone| == 10 then phone[0] == '0' && MobileBody(phone[1..])
      else MobileBody(phone);
    assert ok ==> PhoneLanguage(phone) by {
      if ok {
        if |phone| == 13 {
          assert IsPrefix(phone[..4]) && MobileBody(phone[4..]);
        } else if |phone| == 10 {
          assert phone[..1] == "0";
          assert IsPrefix(phone[..1]) && MobileBody(phone[1..]);
        } else {
          assert phone[..0] == "";
          assert IsPrefix(phone[..0]) && MobileBody(phone[0..]);
        }
      }
    }
    assert |phone| >= 3 && phone[..3] == "251" ==> !ok by {
      if |phone| >= 3 && phone[..3] == "251" {
        assert phone[0] == '2';
        if |phone| == 13 {
          assert phone[..4][0] == '2';
        }
      }
    }
    assert PhoneLanguage(phone) ==> ok by {
      if PhoneLanguage(phone) {
        var k :| 0 <= k <= |phone| && IsPrefix(phone[..k]) && MobileBody(phone[k..]);
        assert |phone[..k]| == k;
        if k == 0 {
          assert phone[0..] == phone;
        }
      }
    }
    ok
  }

  /** A sanitiser input: a string, or any other JSON value. */
  datatype Input = Text(s: string) | NonText(value: nat)

  predicate IsAngle(c: char)
  {
    c == '<' || c == '>'
  }

  /** `replace(/[<>]/g, '')`: every other character kept, in order. */
  function StripAngles(s: string): (r: string)
    ensures |r| <= |s|
    ensures forall i :: 0 <= i < |r| ==> !IsAngle(r[i])
  {
    if |s| == 0 then ""
    else (if IsAngle(s[0]) then "" else [s[0]]) + StripAngles(s[1..])
  }

  /** A character `sanitizeInput` keeps: anything but an angle bracket. */
  predicate Kept(c: char)
  {
    !IsAngle(c)
  }

  /** Stripping is filtering on `Kept`: the surviving characters stay in their order. */
  lemma {:induction false} StripAnglesIsFilter(s: string)
    ensures StripAngles(s) == Seqs.Filter(s, Kept)
  {
    if |s| > 0 {
      StripAnglesIsFilter(s[1..]);
    }
  }

  /** Stripping keeps every other character as often as it occurs. */
  lemma {:induction false} StripAnglesKeepsOthers(s: string, c: char)
    requires !IsAngle(c)
    ensures multiset(StripAngles(s))[c] == multiset(s)[c]
  {
    if |s| > 0 {
      assert s == [s[0]] + s[1..];
      StripAnglesKeepsOthers(s[1..], c);
    }
  }

  /** Stripping works piecewise, which is why it keeps the order of what remains. */
  lemma {:induction false} StripAnglesAppend(a: string, b: string)
    ensures StripAngles(a + b) == StripAngles(a) + StripAngles(b)
  {
    if |a| == 0 {
      assert a + b == b;
    } else {
      var head := if IsAngle(a[0]) then "" else [a[0]];
      assert (a + b)[0] == a[0];
      assert (a + b)[1..] == a[1..] + b;
      assert StripAngles(a + b) == head + StripAngles(a[1..] + b);
      StripAnglesAppend(a[1..], b);
      assert StripAngles(a) == head + StripAngles(a[1..]);
    }
  }

  lemma {:induction false} StripAnglesOfClean(s: string)
    requires forall i :: 0 <= i < |s| ==> !IsAngle(s[i])
    ensures StripAngles(s) == s
  {
    if |s| > 0 {
      StripAnglesOfClean(s[1..]);
      assert s == [s[0]] + s[1..];
    }
  }

  /**
   `sanitizeInput`: a non-string comes back unchanged; a string is trimmed
   and then loses every angle bracket, keeping all other characters.
   */
  function SanitizeInput(input: Input): (r: Input)
    ensures input.NonText? ==> r == input
    ensures input.Text? ==> r.Text? && |r.s| <= |input.s|
    ensures input.Text? ==> forall i :: 0 <= i < |r.s| ==> !IsAngle(r.s[i])
    ensures input.Text? ==> forall c :: !IsAngle(c) ==> multiset(r.s)[c] == multiset(Text.Trim(input.s))[c]
    ensures input.Text? ==> r.s == Seqs.Filter(Text.Trim(input.s), Kept)
  {
    match input
    case NonText(_) => input
    case Text(s) =>
      StripAnglesIsFilter(Text.Trim(s));
      assert forall c :: !IsAngle(c) ==> multiset(StripAngles(Text.Trim(s)))[c] == multiset(Text.Trim(s))[c] by {
        forall c | !IsAngle(c) {
          StripAnglesKeepsOthers(Text.Trim(s), c);
        }
      }
      Text(StripAngles(Text.Trim(s)))
  }

  /** Text with no angle bracket and no whitespace margin passes through unchanged. */
  lemma SanitizeKeepsCleanText(s: string)
    requires forall i :: 0 <= i < |s| ==> !IsAngle(s[i])
    requires |s| == 0 || (!Text.IsSpace(s[0]) && !Text.IsSpace(s[|s| - 1]))
    ensures SanitizeInput(Text(s)) == Text(s)
  {
    StripAnglesOfClean(s);
  }

  /**
   Trimming runs before the brackets go, so a bracket at the edge can leave
   whitespace behind: sanitising `"a <"` gives `"a "`, and sanitising again
   gives `"a"`.
   */
  lemma SanitizeCanLeaveEdgeSpace()
    ensures SanitizeInput(Text("a <")) == Text("a ")
    ensures SanitizeInput(SanitizeInput(Text("a <"))) == Text("a")
  {
    SanitizeDropsBracket();
    SanitizeDropsSpace();
  }

  lemma SanitizeDropsBracket()
    ensures SanitizeInput(Text("a <")) == Text("a ")
  {
    TrimLeavesBracket();
    StripsBracket();
  }

  lemma SanitizeDropsSpace()
    ensures SanitizeInput(Text("a ")) == Text("a")
  {
    TrimDropsSpace();
    StripAnglesOfClean("a");
  }

  lemma TrimLeavesBracket()
    ensures Text.Trim("a <") == "a <"
  {
    assert !Text.IsSpace('a') && !Text.IsSpace('<');
  }

  lemma StripsBracket()
    ensures StripAngles("a <") == "a "
  {
    assert "a <"[1..] == " <";
    assert " <"[1..] == "<";
    assert "<"[1..] == "";
  }

  lemma TrimDropsSpace()
    ensures Text.Trim("a ") == "a"
  {
    assert Text.LeadingSpace("a ") == 0;
    assert "a "[..1] == "a";
    assert Text.TrailingSpace("a ") == 1;
  }

  /** The cities that get the longer delivery time, compared exactly and case-sensitively. */
  predicate IsRemoteCity(city: string)
  {
    city == "Gambela" || city == "Afar" || city == "Somali"
  }

  /** `calculateDeliveryDate`: the order day moved on by 7 days for a remote city and 3 otherwise. */
  function CalculateDeliveryDate(orderDay: int, city: string): (day: int)
    ensures day == orderDay + 7 <==> IsRemoteCity(city)
    ensures day == orderDay + 3 <==> !IsRemoteCity(city)
    ensures orderDay + 3 <= day <= orderDay + 7
  {
    var daysToAdd := if IsRemoteCity(city) then 7 else 3;
    orderDay + daysToAdd
  }

  /**
   The city is matched by its exact name: the lower-case spelling of a remote
   city is not in the list and gets the short delay.
   */
  lemma RemoteMatchIsExact(orderDay: int)
    ensures CalculateDeliveryDate(orderDay, "Gambela") == orderDay + 7
    ensures CalculateDeliveryDate(orderDay, "gambela") == orderDay + 3
  {
    assert "gambela"[0] != "Gambela"[0];
  }

  /** A later order for the same city is never delivered earlier. */
  lemma DeliveryKeepsOrder(day1: int, day2: int, city: string)
    requires day1 <= day2
    ensures CalculateDeliveryDate(day1, city) <= CalculateDeliveryDate(day2, city)
  {
  }
}
