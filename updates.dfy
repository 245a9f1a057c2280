/**
 * The "Updates" screen: status updates and channels shown as a two-section
 * list, each row with a coloured avatar carrying the name's initials.
 */
module Updates {
  import opened Wrappers
  import opened Text

  const UpdatePalette: seq<string> := ["#FF6B6B", "#4ECDC4", "#45B7D1", "#96CEB4", "#FFEAA7", "#DDA0DD"]
  const ChannelPalette: seq<string> := ["#25D366", "#128C7E", "#075E54", "#34B7F1", "#FF6B6B", "#4ECDC4"]

  /** `getUpdateColor(name)`: the palette entry picked by the name's length. */
  function GetUpdateColor(name: string): (color: string)
    ensures color in UpdatePalette
    ensures forall k :: 0 <= k < |UpdatePalette| ==> (color == UpdatePalette[k] <==> |name| % 6 == k)
  {
    UpdatePalette[|name| % |UpdatePalette|]
  }

  /** `getChannelColor(name)`: the same choice over the channel palette. */
  function GetChannelColor(name: string): (color: string)
    ensures color in ChannelPalette
    ensures forall k :: 0 <= k < |ChannelPalette| ==> (color == ChannelPalette[k] <==> |name| % 6 == k)
  {
    ChannelPalette[|name| % |ChannelPalette|]
  }

  /**
   * Two names get the same colour exactly when their lengths agree mod 6:
   * the colour depends on nothing else, and the six entries are distinct.
   */
  lemma ColorDependsOnLengthOnly(a: string, b: string)
    ensures GetUpdateColor(a) == GetUpdateColor(b) <==> |a| % 6 == |b| % 6
    ensures GetChannelColor(a) == GetChannelColor(b) <==> |a| % 6 == |b| % 6
  {
  }

  /** `words.map(word => word[0]).join('')`: a missing first character of an empty word joins as nothing. */
  function FirstLetters(words: seq<string>): (r: string)
    ensures |r| <= |words|
    ensures forall i :: 0 <= i < |r| ==> exists j :: 0 <= j < |words| && words[j] != [] && r[i] == words[j][0]
    decreases |words|
  {
    if words == [] then ""
    else
      var rest := FirstLetters(words[1..]);
      var head := if words[0] == [] then "" else [words[0][0]];
      var r := head + rest;
      assert forall i :: 0 <= i < |r| ==> exists j :: 0 <= j < |words| && words[j] != [] && r[i] == words[j][0] by {
        forall i | 0 <= i < |r|
          ensures exists j :: 0 <= j < |words| && words[j] != [] && r[i] == words[j][0]
        {
          if i < |head| {
            assert r[i] == words[0][0];
          } else {
            assert r[i] == rest[i - |head|];
            var j :| 0 <= j < |words[1..]| && words[1..][j] != [] && rest[i - |head|] == words[1..][j][0];
            assert words[j + 1] == words[1..][j];
          }
        }
      }
      r
  }

  /** A single word contributes its first character, or nothing when it is empty. */
  lemma FirstLettersOfWord(w: string)
    ensures FirstLetters([w]) == if w == [] then "" else [w[0]]
  {
    assert [w][1..] == [];
  }

  /** The letters of two lists of words one after the other are the letters of each, in order. */
  lemma {:induction false} FirstLettersAppend(a: seq<string>, b: seq<string>)
    ensures FirstLetters(a + b) == FirstLetters(a) + FirstLetters(b)
    decreases |a|
  {
    if a != [] {
      var head := if a[0] == [] then "" else [a[0][0]];
      assert (a + b)[0] == a[0] && (a + b)[1..] == a[1..] + b;
      FirstLettersAppend(a[1..], b);
      calc {
        FirstLetters(a + b);
        head + FirstLetters(a[1..] + b);
        head + (FirstLetters(a[1..]) + FirstLetters(b));
        (head + FirstLetters(a[1..])) + FirstLetters(b);
        FirstLetters(a) + FirstLetters(b);
      }
    } else {
      assert a + b == b;
    }
  }

  /**
   * `getUpdateInitials(name)` and `getChannelInitials(name)`, which have the
   * same body: the first characters of the space-separated words, at most two.
   */
  function Initials(name: string): (r: string)
    ensures |r| <= 2 && r <= FirstLetters(Split(name, ' '))
    ensures |r| == if |FirstLetters(Split(name, ' '))| < 2 then |FirstLetters(Split(name, ' '))| else 2
    ensures ' ' !in r
  {
    var words := Split(name, ' ');
    var letters := FirstLetters(words);
    assert ' ' !in letters by {
      forall i | 0 <= i < |letters|
        ensures letters[i] != ' '
      {
        var j :| 0 <= j < |words| && words[j] != [] && letters[i] == words[j][0];
        assert words[j][0] in words[j];
      }
    }
    Take(letters, 2)
  }

  /**
   * For a name made of words separated by single spaces, the initials are
   * the first letters of its first two words (of its only word, if one).
   */
  lemma {:induction false} InitialsOfWords(words: seq<string>)
    requires |words| >= 1
    requires forall i :: 0 <= i < |words| ==> words[i] != [] && ' ' !in words[i]
    ensures Initials(Join(words, ' ')) == if |words| == 1 then [words[0][0]] else [words[0][0], words[1][0]]
  {
    SplitJoin(words, ' ');
    var letters := FirstLetters(words);
    assert letters[0] == words[0][0];
    if |words| >= 2 {
      assert FirstLetters(words[1..])[0] == words[1][0];
      assert letters[1] == words[1][0];
    }
  }

  /** A row of the updates table. */
  datatype UpdateRow = UpdateRow(id: int, name: string, status: string, time: string, avatar: string)

  datatype Channel = Channel(id: string, name: string, description: string, memberCount: string)

  /** An entry of a section: the add-status placeholder, a status update, or a channel. */
  datatype Item = AddStatus | Update(update: UpdateRow) | ChannelItem(channel: Channel)

  /** The item's `type` field; rows of the updates table carry none. */
  function ItemType(item: Item): Option<string> {
    match item
    case AddStatus => Some("addStatus")
    case Update(_) => None
    case ChannelItem(_) => Some("channel")
  }

  datatype Section = Section(title: string, data: seq<Item>)

  const Channels: seq<Channel> := [
    Channel("channel1", "WhatsApp", "Resmi WhatsApp kanalı", "2.5M"),
    Channel("channel2", "Teknoloji Haberleri", "Güncel teknoloji haberleri", "150K"),
    Channel("channel3", "Mobil Geliştirme", "Mobil uygulama geliştirme ipuçları", "89K")
  ]

  function UpdateItems(updates: seq<UpdateRow>): (items: seq<Item>)
    ensures |items| == |updates|
    ensures forall i :: 0 <= i < |updates| ==> items[i] == Update(updates[i])
  {
    seq(|updates|, i requires 0 <= i < |updates| => Update(updates[i]))
  }

  /** `sectionsData`: the statuses (after the add-status placeholder), then the three fixed channels. */
  function SectionsData(updates: seq<UpdateRow>): seq<Section> {
    [
      Section("Durumlar", [AddStatus] + UpdateItems(updates)),
      Section("Kanallar", [ChannelItem(Channels[0]), ChannelItem(Channels[1]), ChannelItem(Channels[2])])
    ]
  }

  /** What `renderItem` draws for an item of a section. */
  datatype Card = AddStatusCard | UpdateCard(item: Item) | ChannelCard(item: Item) | NoCard

  /** `renderItem({item, section})`. */
  function RenderItem(item: Item, sectionTitle: string): (card: Card)
    ensures card == AddStatusCard <==> sectionTitle == "Durumlar" && item == AddStatus
    ensures card.UpdateCard? <==> sectionTitle == "Durumlar" && item != AddStatus
    ensures card.ChannelCard? <==> sectionTitle == "Kanallar"
    ensures card == NoCard <==> sectionTitle != "Durumlar" && sectionTitle != "Kanallar"
    ensures card.UpdateCard? || card.ChannelCard? ==> card.item == item
  {
    if sectionTitle == "Durumlar" then
      if ItemType(item) == Some("addStatus") then AddStatusCard else UpdateCard(item)
    else if sectionTitle == "Kanallar" then
      ChannelCard(item)
    else
      NoCard
  }

  /**
   * The screen as built: a statuses section whose first row is the add card
   * followed by one update card per update in order, and a channels section
   * of exactly the three fixed channels, each drawn as a channel card.
   */
  lemma ScreenRows(updates: seq<UpdateRow>)
    ensures var sections := SectionsData(updates);
      |sections| == 2 &&
      sections[0].title == "Durumlar" && |sections[0].data| == |updates| + 1 &&
      RenderItem(sections[0].data[0], sections[0].title) == AddStatusCard &&
      (forall i :: 0 <= i < |updates| ==>
        RenderItem(sections[0].data[i + 1], sections[0].title) == UpdateCard(Update(updates[i]))) &&
      sections[1].title == "Kanallar" && |sections[1].data| == 3 &&
      (forall i :: 0 <= i < 3 ==>
        RenderItem(sections[1].data[i], sections[1].title) == ChannelCard(ChannelItem(Channels[i])))
  {
    var sections := SectionsData(updates);
    var statuses := sections[0].data;
    assert statuses[0] == AddStatus;
    forall i | 0 <= i < |updates|
      ensures RenderItem(statuses[i + 1], "Durumlar") == UpdateCard(Update(updates[i]))
    {
      assert statuses[i + 1] == Update(updates[i]);
    }
  }
}
