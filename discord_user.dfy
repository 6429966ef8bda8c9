/**
 * The Discord account a sign-in reports (the JSON of Discord's `/users/@me`), and the two
 * values the service derives from it: the full user name and the avatar URL.
 */
module DiscordUsers {
  import opened Wrappers
  import opened Text

  /** Every field can be missing from the JSON, so every field may be null. */
  datatype DiscordUser = DiscordUser(
    id: Option<int>,
    username: Option<string>,
    globalName: Option<string>,
    discriminator: Option<string>,
    avatar: Option<string>,
    email: Option<string>,
    emailVerified: Option<bool>)

  const AvatarCdnPrefix: string := "https://cdn.discordapp.com/avatars/"
  const AvatarSuffix: string := ".png"

  /** A boxed `Long` in string concatenation: its decimal form, or "null". */
  function LongOrNull(v: Option<int>): (s: string)
    ensures s == "null" <==> v.None?
    ensures |s| >= 1 && (v.Some? ==> (v.value < 0 <==> s[0] == '-'))
  {
    if v.None? then "null" else IntToString(v.value)
  }

  /** `getFullUsername`: `username + "#" + discriminator`, a null part printing as "null". */
  function FullUsername(d: DiscordUser): (s: string)
    ensures |s| == |Show(d.username)| + 1 + |Show(d.discriminator)|
    ensures s[|Show(d.username)|] == '#'
  {
    Show(d.username) + "#" + Show(d.discriminator)
  }

  /** The text before the first '#', and the text after it (empty when there is none). */
  function SplitAtHash(s: string): (r: (string, string))
    ensures '#' !in r.0
  {
    if s == [] then ("", "")
    else if s[0] == '#' then ("", s[1..])
    else
      var rest := SplitAtHash(s[1..]);
      ([s[0]] + rest.0, rest.1)
  }

  /** Splitting at the first '#' takes apart a name joined with '#' when the first part has none. */
  lemma {:induction false} SplitJoin(first: string, second: string)
    requires '#' !in first
    ensures SplitAtHash(first + "#" + second) == (first, second)
  {
    var joined := first + "#" + second;
    if first == [] {
      assert joined[1..] == second;
    } else {
      assert joined[0] == first[0] != '#';
      assert joined[1..] == first[1..] + "#" + second;
      SplitJoin(first[1..], second);
      assert [first[0]] + first[1..] == first;
    }
  }

  /** The full user name gives back the user name and the discriminator. */
  lemma FullUsernameSplits(d: DiscordUser)
    requires '#' !in Show(d.username)
    ensures SplitAtHash(FullUsername(d)) == (Show(d.username), Show(d.discriminator))
  {
    SplitJoin(Show(d.username), Show(d.discriminator));
  }

  /** `getAvatarUrl`: null without an avatar hash, otherwise the CDN URL of the PNG. */
  function AvatarUrl(d: DiscordUser): (r: Option<string>)
    ensures r.None? <==> d.avatar.None?
    ensures r.Some? ==> StartsWith(r.value, AvatarCdnPrefix) && EndsWith(r.value, AvatarSuffix)
  {
    if d.avatar.None? then None
    else
      var url := AvatarCdnPrefix + LongOrNull(d.id) + "/" + d.avatar.value + AvatarSuffix;
      assert url[..|AvatarCdnPrefix|] == AvatarCdnPrefix;
      assert url[|url| - |AvatarSuffix|..] == AvatarSuffix;
      Some(url)
  }

  /** Between the prefix and the suffix of the URL sit the account id and the avatar hash. */
  lemma AvatarUrlParts(d: DiscordUser)
    requires d.avatar.Some?
    ensures var url := AvatarUrl(d).value;
      url[|AvatarCdnPrefix|..|url| - |AvatarSuffix|] == LongOrNull(d.id) + "/" + d.avatar.value
  {
    var middle := LongOrNull(d.id) + "/" + d.avatar.value;
    var url := AvatarCdnPrefix + middle + AvatarSuffix;
    assert url[|AvatarCdnPrefix|..|url| - |AvatarSuffix|] == middle;
  }
}
