/** The dashboard video card's pure helpers: the M:SS duration label, the
    record copy handed to `onUpdate` by the publish toggle, and the PRIVATE
    badge condition. */
module DashboardCard {
  import opened Common
  import opened Videos

  predicate IsDigit(c: char)
  {
    '0' <= c <= '9'
  }

  predicate AllDigits(s: string)
  {
    forall i :: 0 <= i < |s| ==> IsDigit(s[i])
  }

  function DigitChar(k: nat): (c: char)
    requires k < 10
    ensures IsDigit(c) && c as int - '0' as int == k
  {
    ('0' as int + k) as char
  }

  /** `String(n)` for a natural number: decimal, no leading zeros. */
  function NatToString(n: nat): (r: string)
    ensures |r| >= 1 && AllDigits(r)
    ensures |r| == 1 <==> n < 10
    ensures r[0] == '0' <==> n == 0
    decreases n
  {
    if n < 10 then [DigitChar(n)]
    else NatToString(n / 10) + [DigitChar(n % 10)]
  }

  /** The value of a string of decimal digits. */
  function ParseDigits(s: string): nat
    requires AllDigits(s)
    decreases |s|
  {
    if s == [] then 0
    else ParseDigits(s[..|s| - 1]) * 10 + (s[|s| - 1] as int - '0' as int)
  }

  /** Reading a rendered number back gives the number. */
  lemma {:induction false} ParseNatToString(n: nat)
    ensures ParseDigits(NatToString(n)) == n
    decreases n
  {
    if n >= 10 {
      var s := NatToString(n);
      assert s[..|s| - 1] == NatToString(n / 10);
      ParseNatToString(n / 10);
    }
  }

  /** A leading '0' does not change the value. */
  lemma {:induction false} ParseLeadingZero(s: string)
    requires AllDigits(s)
    ensures ParseDigits("0" + s) == ParseDigits(s)
    decreases |s|
  {
    if s != [] {
      var z := "0" + s;
      assert z[..|z| - 1] == "0" + s[..|s| - 1];
      ParseLeadingZero(s[..|s| - 1]);
    }
  }

  /** `s.padStart(2, '0')`. */
  function PadTwo(s: string): (r: string)
    ensures |s| <= 2 ==> |r| == 2
    ensures |s| >= 2 ==> r == s
    ensures |s| < 2 ==> r == seq(2 - |s|, _ => '0') + s
  {
    if |s| >= 2 then s
    else if |s| == 1 then "0" + s
    else "00"
  }

  /** The label under the thumbnail: a missing or zero duration is "0:00";
      otherwise whole minutes, ':', then the seconds as two digits. */
  function FormatDuration(duration: Option<nat>): (r: string)
    ensures duration.None? || duration.value == 0 ==> r == "0:00"
    ensures duration.Some? && duration.value > 0 ==>
              var d := duration.value;
              var m := NatToString(d / 60);
              && |r| == |m| + 3 && r[..|m|] == m && r[|m|] == ':'
              && AllDigits(r[|m| + 1..]) && ParseDigits(r[|m| + 1..]) == d % 60
  {
    if duration.None? || duration.value == 0 then "0:00"
    else
      var d := duration.value;
      var seconds := NatToString(d % 60);
      ParseNatToString(d % 60);
      ParseLeadingZero(seconds);
      var m := NatToString(d / 60);
      var r := m + ":" + PadTwo(seconds);
      assert r[..|m|] == m && r[|m| + 1..] == PadTwo(seconds);
      r
  }

  /** Position of the first ':' in `s`, if any. */
  function ColonAt(s: string): (r: Option<nat>)
    ensures r.Some? ==> r.value < |s| && s[r.value] == ':' && forall i :: 0 <= i < r.value ==> s[i] != ':'
    ensures r.None? ==> ':' !in s
  {
    if s == [] then None
    else if s[0] == ':' then Some(0)
    else
      var rest := ColonAt(s[1..]);
      if rest.None? then None else Some(rest.value + 1)
  }

  /** Reads an M:SS label back into seconds. */
  function ParseDuration(s: string): (r: Option<nat>)
  {
    match ColonAt(s)
    case None => None
    case Some(i) =>
      var minutes := s[..i];
      var seconds := s[i + 1..];
      if minutes != [] && |seconds| == 2 && AllDigits(minutes) && AllDigits(seconds)
      then Some(ParseDigits(minutes) * 60 + ParseDigits(seconds))
      else None
  }

  /** A run of digits then ':' puts the first colon right after the digits. */
  lemma {:induction false} ColonAfterDigits(s: string, k: nat)
    requires k < |s| && AllDigits(s[..k]) && s[k] == ':'
    ensures ColonAt(s) == Some(k)
    decreases k
  {
    if k > 0 {
      assert s[1..][..k - 1] == s[1..k];
      assert forall i :: 0 <= i < k - 1 ==> s[1..k][i] == s[..k][i + 1];
      ColonAfterDigits(s[1..], k - 1);
    }
  }

  /** The label for zero reads back as zero. */
  lemma ZeroLabelParses()
    ensures ParseDuration("0:00") == Some(0)
  {
    ColonAfterDigits("0:00", 1);
    assert "0:00"[..1] == "0" && "0:00"[2..] == "00";
    assert "00"[..1] == "0";
  }

  /** For every whole-second duration the label reads back as that
      duration: minutes times sixty plus seconds is the total. */
  lemma DurationRoundTrip(d: nat)
    ensures ParseDuration(FormatDuration(Some(d))) == Some(d)
  {
    var r := FormatDuration(Some(d));
    if d == 0 {
      ZeroLabelParses();
    } else {
      var m := NatToString(d / 60);
      ColonAfterDigits(r, |m|);
      ParseNatToString(d / 60);
    }
  }

  /** `{ ...video, isPublished: !video.isPublished }` */
  function TogglePublishCopy(v: Video): (r: Video)
    ensures r.isPublished != v.isPublished
    ensures && r.videoFile == v.videoFile && r.thumbnail == v.thumbnail && r.title == v.title
            && r.description == v.description && r.duration == v.duration && r.views == v.views
            && r.owner == v.owner
  {
    v.(isPublished := !v.isPublished)
  }

  /** Flipping twice gives back the record. */
  lemma TogglePublishInvolution(v: Video)
    ensures TogglePublishCopy(TogglePublishCopy(v)) == v
  {
  }

  /** The red PRIVATE badge is rendered exactly for unpublished videos. */
  predicate ShowsPrivateBadge(v: Video)
  {
    !v.isPublished
  }

  /** After the toggle the badge shows exactly when it did not before. */
  lemma ToggleFlipsBadge(v: Video)
    ensures ShowsPrivateBadge(TogglePublishCopy(v)) <==> !ShowsPrivateBadge(v)
  {
  }
}
