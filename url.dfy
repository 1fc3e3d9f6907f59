/** `getCardInfo`: the card id and the season taken from the page address by
    the regular expressions /card=(\d+)/ and /season=(\d+)/. A match is the
    leftmost position where the key is followed by at least one digit; the
    group is the longest run of digits there. */
module Url {

  import opened Wrappers
  import opened Text

  /** The season used when the address names none (`CURRENT_SEASON`). */
  const CurrentSeason: string := "3"

  const CardKey: string := "card="

  const SeasonKey: string := "season="

  /** Length of the run of digits that starts at position i (`\d+` is greedy). */
  function DigitRun(s: string, i: nat): (n: nat)
    requires i <= |s|
    ensures i + n <= |s|
    ensures forall j :: i <= j < i + n ==> IsDigit(s[j])
    ensures i + n == |s| || !IsDigit(s[i + n])
    decreases |s| - i
  {
    if i < |s| && IsDigit(s[i]) then 1 + DigitRun(s, i + 1) else 0
  }

  /** The pattern `key(\d+)` matches at position i. */
  predicate MatchAt(s: string, key: string, i: nat) {
    i + |key| < |s| && s[i..i + |key|] == key && IsDigit(s[i + |key|])
  }

  /** The leftmost match at or after `from`. */
  function FirstMatch(s: string, key: string, from: nat): (r: Option<nat>)
    requires from <= |s|
    ensures r.Some? ==> from <= r.value && MatchAt(s, key, r.value)
    ensures r.Some? ==> forall j :: from <= j < r.value ==> !MatchAt(s, key, j)
    ensures r.None? ==> forall j :: from <= j <= |s| ==> !MatchAt(s, key, j)
    decreases |s| - from
  {
    if MatchAt(s, key, from) then Some(from)
    else if from == |s| then None
    else FirstMatch(s, key, from + 1)
  }

  /** The text `key` occurs in s at position i. */
  predicate OccursAt(s: string, key: string, i: nat) {
    i + |key| <= |s| && s[i..i + |key|] == key
  }

  /** `s.match(/key(\d+)/)`, the first group, or None for `null`. */
  function Capture(s: string, key: string): (r: Option<string>)
    ensures r.None? <==> forall j :: 0 <= j <= |s| ==> !MatchAt(s, key, j)
    ensures r.Some? ==> |r.value| > 0 && forall c :: c in r.value ==> IsDigit(c)
    ensures r.Some? ==> exists i ::
      && 0 <= i && MatchAt(s, key, i) && IsGroupAt(s, key, i, r.value)
      && forall j :: 0 <= j < i ==> !MatchAt(s, key, j)
  {
    match FirstMatch(s, key, 0)
    case None => None
    case Some(i) =>
      var start := i + |key|;
      Some(s[start..start + DigitRun(s, start)])
  }

  /** `g` is the longest run of digits after the key at position i. */
  predicate IsGroupAt(s: string, key: string, i: nat, g: string) {
    var start := i + |key|;
    start + |g| <= |s| && s[start..start + |g|] == g
    && (start + |g| == |s| || !IsDigit(s[start + |g|]))
  }

  datatype CardInfo = CardInfo(cardId: Option<string>, season: string)

  function GetCardInfo(url: string): (info: CardInfo)
    ensures info.cardId == Capture(url, CardKey)
    ensures Capture(url, SeasonKey).Some? ==> info.season == Capture(url, SeasonKey).value
    ensures |info.season| > 0 && forall c :: c in info.season ==> IsDigit(c)
    ensures info.season == CurrentSeason <==>
      Capture(url, SeasonKey).None? || Capture(url, SeasonKey) == Some(CurrentSeason)
  {
    var season := match Capture(url, SeasonKey)
      case Some(digits) => digits
      case None => CurrentSeason;
    CardInfo(Capture(url, CardKey), season)
  }

  /** An address in which "season=" does not occur gets the current season. */
  lemma SeasonDefault(url: string)
    requires forall j: nat :: !OccursAt(url, SeasonKey, j)
    ensures GetCardInfo(url).season == CurrentSeason
  {
    forall j | 0 <= j <= |url| ensures !MatchAt(url, SeasonKey, j) {
      assert !OccursAt(url, SeasonKey, j);
    }
  }

  /** For the address "deck/card=7" the card id is "7" and the season "3". */
  lemma CardInfoExample()
    ensures GetCardInfo("deck/card=7") == CardInfo(Some("7"), "3")
  {
    var url := "deck/card=7";
    CardIdExample(url);
    NoSeasonExample(url);
    SeasonDefault(url);
  }

  lemma NoSeasonExample(url: string)
    requires url == "deck/card=7"
    ensures forall j: nat :: !OccursAt(url, SeasonKey, j)
  {
    assert 's' !in url;
    forall j: nat ensures !OccursAt(url, SeasonKey, j) {
      if j + |SeasonKey| <= |url| {
        assert url[j] in url;
        assert url[j..j + |SeasonKey|][0] == url[j];
      }
    }
  }

  lemma CardIdExample(url: string)
    requires url == "deck/card=7"
    ensures Capture(url, CardKey) == Some("7")
  {
    forall j | 0 <= j < 5 ensures !MatchAt(url, CardKey, j) {
      assert url[j + 4] != '=';
    }
    assert url[5..10] == CardKey;
    assert FirstMatch(url, CardKey, 5) == Some(5);
    assert FirstMatch(url, CardKey, 0) == Some(5);
    assert DigitRun(url, 10) == 1;
    assert url[10..11] == "7";
  }
}
