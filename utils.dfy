/**
 * The two pure helpers of lib/utils.ts that the idea cards use:
 * shortening a description for display, and choosing the Tailwind classes
 * of a priority badge.
 */
module Utils {
  import Js
  import opened IdeaTypes

  /** `truncateString`: strings no longer than `maxLength` are kept; longer ones are cut and get "..." appended. */
  function TruncateString(str: string, maxLength: int): (r: string)
    ensures |str| <= maxLength ==> r == str
    ensures 0 <= maxLength < |str| ==> r == str[..maxLength] + "..."
    ensures maxLength < 0 ==> r == str[..if |str| + maxLength >= 0 then |str| + maxLength else 0] + "..."
  {
    if |str| <= maxLength then str else Js.Slice(str, 0, maxLength) + "..."
  }

  /** A truncated string has length `maxLength + 3` and starts with the first `maxLength` characters. */
  lemma TruncatedShape(str: string, maxLength: nat)
    requires |str| > maxLength
    ensures |TruncateString(str, maxLength)| == maxLength + 3
    ensures TruncateString(str, maxLength)[..maxLength] == str[..maxLength]
    ensures TruncateString(str, maxLength)[maxLength..] == "..."
  {
    var r := TruncateString(str, maxLength);
    assert r == str[..maxLength] + "...";
  }

  /** For a non-negative limit, truncating twice is truncating once. */
  lemma TruncateIdempotent(str: string, maxLength: nat)
    ensures TruncateString(TruncateString(str, maxLength), maxLength) == TruncateString(str, maxLength)
  {
    if |str| > maxLength {
      var once := TruncateString(str, maxLength);
      TruncatedShape(str, maxLength);
      assert once[..maxLength] + "..." == once;
    }
  }

  /** For a non-negative limit the result is never longer than the input or `maxLength + 3`, whichever is larger. */
  lemma TruncateLengthBound(str: string, maxLength: nat)
    ensures |TruncateString(str, maxLength)| <= if |str| >= maxLength + 3 then |str| else maxLength + 3
    ensures |TruncateString(str, maxLength)| >= if |str| <= maxLength then |str| else maxLength
  {
    if |str| > maxLength {
      TruncatedShape(str, maxLength);
    }
  }

  /** The Tailwind classes of the four badges: red, yellow, green and the gray default. */
  const HighBadge := "bg-red-100 text-red-800 border-red-200"
  const MediumBadge := "bg-yellow-100 text-yellow-800 border-yellow-200"
  const LowBadge := "bg-green-100 text-green-800 border-green-200"
  const DefaultBadge := "bg-gray-100 text-gray-800 border-gray-200"

  /** The four badges are pairwise different. */
  lemma BadgesDistinct()
    ensures HighBadge != MediumBadge && HighBadge != LowBadge && HighBadge != DefaultBadge
    ensures MediumBadge != LowBadge && MediumBadge != DefaultBadge
    ensures LowBadge != DefaultBadge
  {
    assert HighBadge[3] == 'r' && MediumBadge[3] == 'y' && LowBadge[3] == 'g' && DefaultBadge[3] == 'g';
    assert LowBadge[5] == 'e' && DefaultBadge[5] == 'a';
  }

  /**
   * `getPriorityBadgeColor`: total over all strings. Each of "High",
   * "Medium" and "Low" gets its own badge and no other input gets it;
   * everything else gets the gray default.
   */
  function PriorityBadgeColor(priority: string): (r: string)
    ensures r == HighBadge <==> priority == "High"
    ensures r == MediumBadge <==> priority == "Medium"
    ensures r == LowBadge <==> priority == "Low"
    ensures r == DefaultBadge <==> priority != "High" && priority != "Medium" && priority != "Low"
  {
    BadgesDistinct();
    match priority
    case "High" => HighBadge
    case "Medium" => MediumBadge
    case "Low" => LowBadge
    case _ => DefaultBadge
  }

  /** Every priority level an idea can carry gets a coloured badge, a different one per level. */
  lemma PriorityBadgesDistinct(p: Priority, q: Priority)
    ensures PriorityBadgeColor(PriorityName(p)) != DefaultBadge
    ensures p != q ==> PriorityBadgeColor(PriorityName(p)) != PriorityBadgeColor(PriorityName(q))
  {
    BadgesDistinct();
  }
}
