/**
  The content-to-emoji mapping policy of the reaction bot: a keyword table from
  lowercase keywords to candidate emoji, a keyword matcher that picks one
  candidate per keyword found in the lowercased analysis text and down-samples
  the picks, and a sentiment fallback for text that matches no keyword.

  Python's `random.choice` and `random.sample` are modelled as nondeterministic
  selection (`:|`): the contracts say where a pick comes from and how many
  distinct picks there are, never how likely each one is.
 */
module EmojiMapping {
  import opened Text

  type Emoji = string

  /** Keyword to candidate emoji, as `EmojiMapper.emoji_mappings` holds them. */
  type Table = map<string, seq<Emoji>>

  datatype Option<T> = None | Some(value: T)

  /** The "Animals" group of the keyword table. */
  const Animals: Table := map[
    "cat" := ["🐱", "😸", "😻", "🙀"],
    "dog" := ["🐶", "🐕", "🦮", "🐕‍🦺"],
    "bird" := ["🐦", "🦅", "🦆", "🐧"],
    "fish" := ["🐟", "🐠", "🐡", "🦈"],
    "horse" := ["🐴", "🐎", "🦄"],
    "cow" := ["🐄", "🐮"],
    "pig" := ["🐷", "🐖"],
    "monkey" := ["🐵", "🐒"],
    "lion" := ["🦁"],
    "tiger" := ["🐯"],
    "bear" := ["🐻", "🧸"],
    "panda" := ["🐼"],
    "rabbit" := ["🐰", "🐇"],
    "fox" := ["🦊"],
    "wolf" := ["🐺"],
    "frog" := ["🐸"],
    "turtle" := ["🐢"],
    "snake" := ["🐍"],
    "dragon" := ["🐉", "🐲"],
    "unicorn" := ["🦄"]
  ]

  /** The "Food & Drink" group of the keyword table. */
  const FoodAndDrink: Table := map[
    "pizza" := ["🍕"],
    "burger" := ["🍔"],
    "food" := ["🍽️", "😋", "🤤"],
    "cake" := ["🎂", "🧁"],
    "coffee" := ["☕", "☕️"],
    "beer" := ["🍺", "🍻"],
    "wine" := ["🍷", "🍾"],
    "ice cream" := ["🍦", "🍨"],
    "fruit" := ["🍎", "🍊", "🍌", "🍇"],
    "apple" := ["🍎"],
    "banana" := ["🍌"],
    "orange" := ["🍊"],
    "strawberry" := ["🍓"],
    "bread" := ["🍞", "🥖"],
    "meat" := ["🥩", "🍖"],
    "chicken" := ["🍗"],
    "egg" := ["🥚", "🍳"],
    "pasta" := ["🍝"],
    "soup" := ["🍲"],
    "salad" := ["🥗"]
  ]

  /** The "Nature & Weather" group of the keyword table. */
  const NatureAndWeather: Table := map[
    "sun" := ["☀️", "🌞"],
    "moon" := ["🌙", "🌛", "🌜"],
    "star" := ["⭐", "🌟", "✨"],
    "cloud" := ["☁️", "⛅"],
    "rain" := ["🌧️", "☔", "💧"],
    "snow" := ["❄️", "⛄", "🌨️"],
    "rainbow" := ["🌈"],
    "flower" := ["🌸", "🌺", "🌻", "🌷", "🌹"],
    "tree" := ["🌳", "🌲", "🎋"],
    "mountain" := ["⛰️", "🏔️"],
    "ocean" := ["🌊", "🏖️"],
    "beach" := ["🏖️", "🌊"],
    "fire" := ["🔥", "🚒"],
    "water" := ["💧", "🌊"],
    "earth" := ["🌍", "🌎", "🌏"]
  ]

  /** The "Activities & Sports" group of the keyword table. */
  const ActivitiesAndSports: Table := map[
    "sport" := ["⚽", "🏀", "🏈", "⚾", "🎾"],
    "football" := ["⚽", "🏈"],
    "basketball" := ["🏀"],
    "tennis" := ["🎾"],
    "swimming" := ["🏊‍♂️", "🏊‍♀️", "🌊"],
    "running" := ["🏃‍♂️", "🏃‍♀️", "💨"],
    "cycling" := ["🚴‍♂️", "🚴‍♀️", "🚲"],
    "dancing" := ["💃", "🕺"],
    "music" := ["🎵", "🎶", "🎤", "🎸", "🎹"],
    "gaming" := ["🎮", "🕹️"],
    "reading" := ["📚", "📖"],
    "cooking" := ["👨‍🍳", "👩‍🍳", "🍳"],
    "art" := ["🎨", "🖼️", "✏️"],
    "photography" := ["📸", "📷"]
  ]

  /** The "Emotions & Expressions" group of the keyword table. */
  const EmotionsAndExpressions: Table := map[
    "happy" := ["😊", "😄", "😁", "🙂", "😀"],
    "sad" := ["😢", "😭", "☹️", "😞"],
    "angry" := ["😠", "😡", "🤬"],
    "love" := ["❤️", "💕", "💖", "💗", "💙", "💚", "💛", "🧡", "💜"],
    "heart" := ["❤️", "💕", "💖", "💗"],
    "laugh" := ["😂", "🤣", "😆"],
    "surprise" := ["😮", "😲", "🤯"],
    "excited" := ["🤩", "😍", "🥳"],
    "cool" := ["😎", "🆒"],
    "amazing" := ["🤩", "😍", "🔥", "💯"],
    "beautiful" := ["😍", "🤩", "✨", "💖"],
    "cute" := ["🥰", "😍", "🥺", "💕"]
  ]

  /** The "Transportation" group of the keyword table. */
  const Transportation: Table := map[
    "car" := ["🚗", "🚙", "🏎️"],
    "truck" := ["🚚", "🚛"],
    "plane" := ["✈️", "🛩️"],
    "train" := ["🚂", "🚆", "🚇"],
    "bus" := ["🚌", "🚍"],
    "bike" := ["🚴‍♂️", "🚴‍♀️", "🚲"],
    "motorcycle" := ["🏍️"],
    "boat" := ["⛵", "🚤", "🛥️"],
    "rocket" := ["🚀"]
  ]

  /** The "Technology" group of the keyword table. */
  const Technology: Table := map[
    "computer" := ["💻", "🖥️"],
    "phone" := ["📱", "☎️"],
    "camera" := ["📸", "📷"],
    "robot" := ["🤖"],
    "tech" := ["⚡", "🔧", "⚙️"]
  ]

  /** The "Objects & Items" group of the keyword table. */
  const ObjectsAndItems: Table := map[
    "book" := ["📚", "📖"],
    "gift" := ["🎁"],
    "money" := ["💰", "💵", "💸"],
    "home" := ["🏠", "🏡"],
    "building" := ["🏢", "🏬", "🏭"],
    "school" := ["🏫", "🎓"],
    "hospital" := ["🏥", "⚕️"],
    "church" := ["⛪", "🕌"],
    "flag" := ["🏴", "🏳️"],
    "crown" := ["👑"],
    "diamond" := ["💎"],
    "key" := ["🔑", "🗝️"],
    "lock" := ["🔒", "🔓"],
    "tool" := ["🔧", "🔨", "⚙️"]
  ]

  /** The "Colors" group of the keyword table. */
  const Colors: Table := map[
    "red" := ["❤️", "🔴", "🌹"],
    "blue" := ["💙", "🔵", "🌀"],
    "green" := ["💚", "🟢", "🌿"],
    "yellow" := ["💛", "🟡", "⭐"],
    "purple" := ["💜", "🟣", "🔮"],
    "orange" := ["🧡", "🟠", "🍊"],
    "black" := ["🖤", "⚫"],
    "white" := ["🤍", "⚪"],
    "pink" := ["🩷", "🌸", "🌺"]
  ]

  /** The "Time & Events" group of the keyword table. */
  const TimeAndEvents: Table := map[
    "birthday" := ["🎂", "🥳", "🎉"],
    "party" := ["🎉", "🥳", "🍾"],
    "celebration" := ["🎉", "🥳", "🎊"],
    "wedding" := ["💒", "👰", "🤵", "💍"],
    "christmas" := ["🎄", "🎅", "🤶", "⛄"],
    "halloween" := ["🎃", "👻", "🦇"],
    "new year" := ["🎊", "🥂", "🎆"]
  ]

  /** The "Professions" group of the keyword table. */
  const Professions: Table := map[
    "doctor" := ["👨‍⚕️", "👩‍⚕️", "⚕️"],
    "teacher" := ["👨‍🏫", "👩‍🏫", "📚"],
    "police" := ["👮‍♂️", "👮‍♀️", "🚔"],
    "firefighter" := ["👨‍🚒", "👩‍🚒", "🚒"],
    "chef" := ["👨‍🍳", "👩‍🍳", "🍳"],
    "farmer" := ["👨‍🌾", "👩‍🌾", "🚜"]
  ]

  /**
    The whole table literal. When a key appears twice ('orange' is listed under
    Food & Drink and again under Colors) Python keeps the later value; map union
    `+` keeps the right operand's value, so the groups are joined in source order.
    Every keyword is written in lower case, as the lowered analysis text needs
    it to be, and has at least one candidate.
   */
  function DefaultTable(): (t: Table)
    ensures CandidatesNonEmpty(t)
    ensures KeysLowercase(t)
  {
    AnimalsNonEmpty();
    AnimalsKeysLowercase();
    FoodAndDrinkNonEmpty();
    FoodAndDrinkKeysLowercase();
    NatureAndWeatherNonEmpty();
    NatureAndWeatherKeysLowercase();
    ActivitiesAndSportsNonEmpty();
    ActivitiesAndSportsKeysLowercase();
    EmotionsAndExpressionsNonEmpty();
    EmotionsAndExpressionsKeysLowercase();
    TransportationNonEmpty();
    TransportationKeysLowercase();
    TechnologyNonEmpty();
    TechnologyKeysLowercase();
    ObjectsAndItemsNonEmpty();
    ObjectsAndItemsKeysLowercase();
    ColorsNonEmpty();
    ColorsKeysLowercase();
    TimeAndEventsNonEmpty();
    TimeAndEventsKeysLowercase();
    ProfessionsNonEmpty();
    ProfessionsKeysLowercase();
    UnionWellFormed(Animals, FoodAndDrink);
    UnionWellFormed(Animals + FoodAndDrink, NatureAndWeather);
    UnionWellFormed(Animals + FoodAndDrink + NatureAndWeather, ActivitiesAndSports);
    UnionWellFormed(Animals + FoodAndDrink + NatureAndWeather + ActivitiesAndSports, EmotionsAndExpressions);
    UnionWellFormed(Animals + FoodAndDrink + NatureAndWeather + ActivitiesAndSports + EmotionsAndExpressions, Transportation);
    UnionWellFormed(Animals + FoodAndDrink + NatureAndWeather + ActivitiesAndSports + EmotionsAndExpressions + Transportation, Technology);
    UnionWellFormed(Animals + FoodAndDrink + NatureAndWeather + ActivitiesAndSports + EmotionsAndExpressions + Transportation + Technology, ObjectsAndItems);
    UnionWellFormed(Animals + FoodAndDrink + NatureAndWeather + ActivitiesAndSports + EmotionsAndExpressions + Transportation + Technology + ObjectsAndItems, Colors);
    UnionWellFormed(Animals + FoodAndDrink + NatureAndWeather + ActivitiesAndSports + EmotionsAndExpressions + Transportation + Technology + ObjectsAndItems + Colors, TimeAndEvents);
    UnionWellFormed(Animals + FoodAndDrink + NatureAndWeather + ActivitiesAndSports + EmotionsAndExpressions + Transportation + Technology + ObjectsAndItems + Colors + TimeAndEvents, Professions);
    Animals + FoodAndDrink + NatureAndWeather + ActivitiesAndSports + EmotionsAndExpressions
    + Transportation + Technology + ObjectsAndItems + Colors + TimeAndEvents + Professions
  }

  /** Generic positive reactions. */
  const PositiveReactions: seq<Emoji> := ["👍", "👏", "🔥", "💯", "✨", "⭐", "😍"]

  /** Generic neutral reactions. */
  const NeutralReactions: seq<Emoji> := ["👀", "🤔", "😮", "🙂"]

  /** What every failure, and an empty analysis, falls back to. */
  const FallbackEmojis: seq<Emoji> := ["👀", "😊", "👍", "✨"]

  /** The fixed answer of the negative sentiment branch. */
  const NegativeReactions: seq<Emoji> := ["😔", "😞", "💔"]

  const PositiveWords: seq<string> := [
    "beautiful", "amazing", "wonderful", "great", "awesome", "fantastic",
    "lovely", "perfect", "excellent", "stunning", "gorgeous", "incredible",
    "impressive", "brilliant", "magnificent", "spectacular", "marvelous",
    "delightful", "charming", "elegant", "graceful", "vibrant", "colorful"
  ]

  const NegativeWords: seq<string> := [
    "sad", "terrible", "awful", "bad", "horrible", "ugly", "disgusting",
    "disappointing", "boring", "dull", "dark", "gloomy", "depressing"
  ]

  /** The duplicate key resolves to the later, Colors, entry. */
  lemma OrangeIsTheColorsEntry()
    ensures FoodAndDrink["orange"] == ["🍊"]
    ensures DefaultTable()["orange"] == ["🧡", "🟠", "🍊"]
  {
    OrangeInColors();
    OrangeNotInLaterGroups();
  }

  lemma OrangeInColors()
    ensures "orange" in Colors && Colors["orange"] == ["🧡", "🟠", "🍊"]
  {
  }

  lemma OrangeNotInLaterGroups()
    ensures "orange" !in TimeAndEvents && "orange" !in Professions
  {
  }

  /** Every keyword of `table` has at least one candidate. */
  ghost predicate CandidatesNonEmpty(table: Table)
  {
    forall k :: k in table ==> table[k] != []
  }

  /** Every keyword of `table` is in lower case, so a lowered text can contain it. */
  ghost predicate KeysLowercase(table: Table)
  {
    forall k :: k in table ==> IsLowercase(k)
  }

  /** Joining two well-formed groups gives a well-formed table. */
  lemma UnionWellFormed(a: Table, b: Table)
    requires CandidatesNonEmpty(a) && KeysLowercase(a)
    requires CandidatesNonEmpty(b) && KeysLowercase(b)
    ensures CandidatesNonEmpty(a + b) && KeysLowercase(a + b)
  {
  }

  // Each comment group of the literal has a candidate for every keyword, and lower-case keywords.
  lemma AnimalsNonEmpty() ensures CandidatesNonEmpty(Animals) {}
  lemma AnimalsKeysLowercase() ensures KeysLowercase(Animals) {
    // splitting the keywords by length keeps each case analysis small
    forall k | k in Animals ensures IsLowercase(k) {
      if |k| <= 4 {
      } else if |k| <= 6 {
      } else {
      }
    }
  }
  lemma FoodAndDrinkNonEmpty() ensures CandidatesNonEmpty(FoodAndDrink) {}
  lemma FoodAndDrinkKeysLowercase() ensures KeysLowercase(FoodAndDrink) {
    // splitting the keywords by length keeps each case analysis small
    forall k | k in FoodAndDrink ensures IsLowercase(k) {
      if |k| <= 4 {
      } else if |k| <= 6 {
      } else {
      }
    }
  }
  lemma NatureAndWeatherNonEmpty() ensures CandidatesNonEmpty(NatureAndWeather) {}
  lemma NatureAndWeatherKeysLowercase() ensures KeysLowercase(NatureAndWeather) {}
  lemma ActivitiesAndSportsNonEmpty() ensures CandidatesNonEmpty(ActivitiesAndSports) {}
  lemma ActivitiesAndSportsKeysLowercase() ensures KeysLowercase(ActivitiesAndSports) {
    // splitting the keywords by length keeps each case analysis small
    forall k | k in ActivitiesAndSports ensures IsLowercase(k) {
      if |k| <= 6 {
      } else {
      }
    }
  }
  lemma EmotionsAndExpressionsNonEmpty() ensures CandidatesNonEmpty(EmotionsAndExpressions) {}
  lemma EmotionsAndExpressionsKeysLowercase() ensures KeysLowercase(EmotionsAndExpressions) {}
  lemma TransportationNonEmpty() ensures CandidatesNonEmpty(Transportation) {}
  lemma TransportationKeysLowercase() ensures KeysLowercase(Transportation) {}
  lemma TechnologyNonEmpty() ensures CandidatesNonEmpty(Technology) {}
  lemma TechnologyKeysLowercase() ensures KeysLowercase(Technology) {}
  lemma ObjectsAndItemsNonEmpty() ensures CandidatesNonEmpty(ObjectsAndItems) {}
  lemma ObjectsAndItemsKeysLowercase() ensures KeysLowercase(ObjectsAndItems) {}
  lemma ColorsNonEmpty() ensures CandidatesNonEmpty(Colors) {}
  lemma ColorsKeysLowercase() ensures KeysLowercase(Colors) {}
  lemma TimeAndEventsNonEmpty() ensures CandidatesNonEmpty(TimeAndEvents) {}
  lemma TimeAndEventsKeysLowercase() ensures KeysLowercase(TimeAndEvents) {}
  lemma ProfessionsNonEmpty() ensures CandidatesNonEmpty(Professions) {}
  lemma ProfessionsKeysLowercase() ensures KeysLowercase(Professions) {}

  /**
    A keyword with an upper-case letter could never match: it cannot occur in
    lowered text. This is why the table keeps its keywords in lower case.
   */
  lemma UppercaseKeywordNeverMatches(keyword: string, text: string)
    requires !IsLowercase(keyword)
    ensures !Occurs(keyword, Lower(text))
  {
    var j :| 0 <= j < |keyword| && IsUpper(keyword[j]);
    var lowered := Lower(text);
    forall i ensures !OccursAt(keyword, lowered, i) {
      if 0 <= i && i + |keyword| <= |lowered| {
        assert lowered[i..i + |keyword|][j] == lowered[i + j] != keyword[j];
      }
    }
  }

  /** The four fixed reaction lists have no repeated emoji. */
  lemma ReactionListsDistinct()
    ensures Distinct(FallbackEmojis) && Distinct(NegativeReactions)
    ensures Distinct(PositiveReactions) && Distinct(NeutralReactions)
  {
  }

  /** Every answer built from the fallback list is duplicate-free, and non-empty when asked for some. */
  lemma FallbackPrefix(maxEmojis: int)
    ensures Distinct(Take(FallbackEmojis, maxEmojis))
    ensures maxEmojis > 0 ==> Take(FallbackEmojis, maxEmojis) != []
  {
    ReactionListsDistinct();
  }

  /** `random.choice(candidates)`: some candidate, or IndexError (None) for an empty list. */
  method Choice(candidates: seq<Emoji>) returns (r: Option<Emoji>)
    ensures r.None? <==> candidates == []
    ensures r.Some? ==> r.value in candidates
  {
    if candidates == [] {
      return None;
    }
    assert candidates[0] in candidates;
    var e :| e in candidates;
    return Some(e);
  }

  /**
    `random.sample(population, k)`: `k` entries drawn without replacement, or
    ValueError (None) when `k` is negative or larger than the population.
   */
  method Sample(population: seq<Emoji>, k: int) returns (r: Option<seq<Emoji>>)
    ensures r.None? <==> k < 0 || k > |population|
    ensures r.Some? ==> |r.value| == k && multiset(r.value) <= multiset(population)
    ensures r.Some? && Distinct(population) ==> Distinct(r.value)
  {
    if k < 0 || k > |population| {
      return None;
    }
    assert population == population[..k] + population[k..];
    assert multiset(population[..k]) <= multiset(population);
    var s: seq<Emoji> :| |s| == k && multiset(s) <= multiset(population);
    if Distinct(population) {
      DistinctSubMultiset(s, population);
    }
    return Some(s);
  }

  // ---------------------------------------------------------------------------
  // Sentiment fallback

  /** The positions of the lexicon words that occur in `text`. */
  ghost function Hits(words: seq<string>, text: string): set<int>
  {
    set i | 0 <= i < |words| && Occurs(words[i], text)
  }

  /** Extending the lexicon by one word adds that word's position when it occurs. */
  lemma HitsSnoc(words: seq<string>, text: string)
    requires words != []
    ensures var last := |words| - 1;
      Hits(words, text) == Hits(words[..last], text) + (if Occurs(words[last], text) then {last} else {})
    ensures |words| - 1 !in Hits(words[..|words| - 1], text)
  {
    var last := |words| - 1;
    var init := words[..last];
    forall i | 0 <= i < last ensures init[i] == words[i] {
    }
  }

  /**
    `sum(1 for word in words if word in text)`: the number of lexicon entries
    that occur in `text`.
   */
  function CountOccurring(words: seq<string>, text: string): (n: nat)
    ensures n == |Hits(words, text)|
    ensures n <= |words|
    ensures n == 0 <==> forall w :: w in words ==> !Occurs(w, text)
    ensures n == |words| <==> forall w :: w in words ==> Occurs(w, text)
  {
    if words == [] then 0
    else
      var last := |words| - 1;
      var init := words[..last];
      HitsSnoc(words, text);
      assert forall w :: w in words <==> w in init || w == words[last];
      CountOccurring(init, text) + (if Contains(text, words[last]) then 1 else 0)
  }

  datatype Mood = Positive | Negative | Neutral

  /**
    Which sentiment branch the lexicon counts select: more positive than
    negative words is positive, more negative than positive is negative, and a
    tie, including 0 to 0, is neutral.
   */
  function MoodOf(text: string): (m: Mood)
    ensures m == Positive <==> |Hits(PositiveWords, text)| > |Hits(NegativeWords, text)|
    ensures m == Negative <==> |Hits(NegativeWords, text)| > |Hits(PositiveWords, text)|
    ensures m == Neutral <==> |Hits(PositiveWords, text)| == |Hits(NegativeWords, text)|
  {
    var positiveCount := CountOccurring(PositiveWords, text);
    var negativeCount := CountOccurring(NegativeWords, text);
    if positiveCount > negativeCount then Positive
    else if negativeCount > positiveCount then Negative
    else Neutral
  }

  /** Text with no lexicon word at all takes the neutral branch. */
  lemma NeutralWithoutLexiconWords(text: string)
    requires forall w :: w in PositiveWords ==> !Occurs(w, text)
    requires forall w :: w in NegativeWords ==> !Occurs(w, text)
    ensures MoodOf(text) == Neutral
  {
  }

  /** A non-neutral mood is backed by at least one lexicon word of that polarity. */
  lemma MoodNeedsAWord(text: string)
    ensures MoodOf(text) == Positive ==> exists w :: w in PositiveWords && Occurs(w, text)
    ensures MoodOf(text) == Negative ==> exists w :: w in NegativeWords && Occurs(w, text)
  {
  }

  /**
    A sampling branch: `random.sample(pool, min(maxEmojis, len(pool)))`. A
    negative size raises ValueError, which the handler turns into the fallback prefix.
   */
  ghost predicate SampledOrFallback(pool: seq<Emoji>, maxEmojis: int, r: seq<Emoji>)
  {
    if maxEmojis < 0 then r == Take(FallbackEmojis, maxEmojis)
    else |r| == Min(maxEmojis, |pool|) && multiset(r) <= multiset(pool)
  }

  /** Every answer the sentiment fallback may give for `text`. */
  ghost predicate SentimentOutcome(text: string, maxEmojis: int, r: seq<Emoji>)
  {
    match MoodOf(text)
    case Positive => SampledOrFallback(PositiveReactions, maxEmojis, r)
    case Negative => r == Take(NegativeReactions, maxEmojis)
    case Neutral => SampledOrFallback(NeutralReactions, maxEmojis, r)
  }

  /**
    `_get_sentiment_emojis`: a random sample of the positive or neutral pool,
    or the fixed negative prefix, which is the same on every call.
   */
  method SentimentEmojis(text: string, maxEmojis: int) returns (r: seq<Emoji>)
    ensures SentimentOutcome(text, maxEmojis, r)
    ensures MoodOf(text) == Negative ==> r == Take(NegativeReactions, maxEmojis)
    ensures MoodOf(text) != Negative && maxEmojis >= 0 ==>
      |r| == Min(maxEmojis, if MoodOf(text) == Positive then |PositiveReactions| else |NeutralReactions|)
    ensures Distinct(r)
    ensures maxEmojis >= 0 ==> |r| <= maxEmojis
    ensures maxEmojis > 0 ==> r != []
  {
    ReactionListsDistinct();
    match MoodOf(text)
    case Positive =>
      var sampled := Sample(PositiveReactions, Min(maxEmojis, |PositiveReactions|));
      r := if sampled.Some? then sampled.value else Take(FallbackEmojis, maxEmojis);
    case Negative =>
      r := Take(NegativeReactions, maxEmojis);
    case Neutral =>
      var sampled := Sample(NeutralReactions, Min(maxEmojis, |NeutralReactions|));
      r := if sampled.Some? then sampled.value else Take(FallbackEmojis, maxEmojis);
  }

  // ---------------------------------------------------------------------------
  // Keyword matching

  /** The keywords of `table` that occur in the lowercased text. */
  ghost function MatchedKeywords(table: Table, lowered: string): set<string>
  {
    set k | k in table && Occurs(k, lowered)
  }

  /** Some matched keyword has no candidates, so `random.choice` raises on it. */
  ghost predicate HasEmptyCandidates(table: Table, lowered: string)
  {
    exists k :: k in MatchedKeywords(table, lowered) && table[k] == []
  }

  /** One pick per matched keyword, each among that keyword's candidates. */
  ghost predicate IsChoice(table: Table, lowered: string, choice: map<string, Emoji>)
  {
    && choice.Keys == MatchedKeywords(table, lowered)
    && forall k :: k in choice ==> k in table && choice[k] in table[k]
  }

  /** A map has no more distinct values than keys. */
  lemma {:induction false} MapValuesBound<K, V>(m: map<K, V>)
    ensures |m.Values| <= |m.Keys|
    decreases |m.Keys|
  {
    if m.Keys != {} {
      var k :| k in m.Keys;
      var rest := m - {k};
      assert m.Keys == rest.Keys + {k};
      MapValuesBound(rest);
      assert m.Values <= rest.Values + {m[k]} by {
        forall v | v in m.Values ensures v in rest.Values + {m[k]} {
          var j :| j in m && m[j] == v;
          if j != k {
            assert j in rest && rest[j] == v;
          }
        }
      }
      SubsetCardinality(m.Values, rest.Values + {m[k]});
    }
  }

  lemma SubsetCardinality<T>(a: set<T>, b: set<T>)
    requires a <= b
    ensures |a| <= |b|
  {
    assert b == a + (b - a);
  }

  /**
    The distinct picks never outnumber the matched keywords, there is a pick
    exactly when some keyword matched, and every pick is a candidate of a
    matched keyword.
   */
  lemma ChoiceProperties(table: Table, lowered: string, choice: map<string, Emoji>)
    requires IsChoice(table, lowered, choice)
    ensures |choice.Values| <= |MatchedKeywords(table, lowered)|
    ensures choice.Values == {} <==> MatchedKeywords(table, lowered) == {}
    ensures forall e :: e in choice.Values ==>
      exists k :: k in MatchedKeywords(table, lowered) && e in table[k]
  {
    MapValuesBound(choice);
    if MatchedKeywords(table, lowered) != {} {
      var k :| k in choice;
      assert choice[k] in choice.Values;
    }
  }

  /**
    What the keyword path may return: distinct picks, one per matched keyword,
    cut down to at most `maxEmojis` of them.
   */
  ghost predicate KeywordOutcome(table: Table, lowered: string, maxEmojis: int, r: seq<Emoji>)
  {
    exists choice :: IsChoice(table, lowered, choice)
      && (forall e :: e in r ==> e in choice.Values)
      && |r| == Min(|choice.Values|, maxEmojis)
  }

  /**
    On the keyword path every returned emoji is a candidate of a keyword that
    occurs in the text, and there are no more of them than matched keywords.
   */
  lemma KeywordOutcomeProperties(table: Table, lowered: string, maxEmojis: int, r: seq<Emoji>)
    requires KeywordOutcome(table, lowered, maxEmojis, r)
    ensures |r| <= |MatchedKeywords(table, lowered)|
    ensures forall e :: e in r ==> exists k :: k in table && Occurs(k, lowered) && e in table[k]
    ensures MatchedKeywords(table, lowered) != {} && maxEmojis > 0 ==> r != []
  {
    var choice :| IsChoice(table, lowered, choice)
      && (forall e :: e in r ==> e in choice.Values)
      && |r| == Min(|choice.Values|, maxEmojis);
    ChoiceProperties(table, lowered, choice);
  }

  /** `add_custom_mapping`: the lowered keyword now maps to `emojis`; nothing else changes. */
  function Added(table: Table, keyword: string, emojis: seq<Emoji>): (t: Table)
    ensures Lower(keyword) in t && t[Lower(keyword)] == emojis
    ensures forall k :: k != Lower(keyword) ==> (k in t <==> k in table)
    ensures forall k :: k != Lower(keyword) && k in t ==> t[k] == table[k]
    ensures KeysLowercase(table) ==> KeysLowercase(t)
  {
    table[Lower(keyword) := emojis]
  }

  /** `remove_mapping`: the lowered keyword is gone, if it was there; nothing else changes. */
  function Removed(table: Table, keyword: string): (t: Table)
    ensures Lower(keyword) !in t
    ensures forall k :: k != Lower(keyword) ==> (k in t <==> k in table)
    ensures forall k :: k != Lower(keyword) && k in t ==> t[k] == table[k]
    ensures Lower(keyword) !in table ==> t == table
    ensures KeysLowercase(table) ==> KeysLowercase(t)
  {
    if Lower(keyword) in table then table - {Lower(keyword)} else table
  }

  /** Adding then removing a keyword is removing it. */
  lemma AddThenRemove(table: Table, keyword: string, emojis: seq<Emoji>)
    ensures Removed(Added(table, keyword, emojis), keyword) == Removed(table, keyword)
  {
    var lhs := Removed(Added(table, keyword, emojis), keyword);
    var rhs := Removed(table, keyword);
    assert lhs.Keys == rhs.Keys;
  }

  /** ... so for a keyword that was not in the table, adding then removing restores the table. */
  lemma AddThenRemoveRestores(table: Table, keyword: string, emojis: seq<Emoji>)
    requires Lower(keyword) !in table
    ensures Removed(Added(table, keyword, emojis), keyword) == table
  {
    AddThenRemove(table, keyword, emojis);
  }

  /**
    An added keyword is matched by any text that contains it in any letter
    case: `variant` is the keyword as it appears in the text.
   */
  lemma AddedKeywordMatches(table: Table, keyword: string, emojis: seq<Emoji>, variant: string, text: string)
    requires Lower(variant) == Lower(keyword)
    requires Occurs(variant, text)
    ensures Lower(keyword) in MatchedKeywords(Added(table, keyword, emojis), Lower(text))
  {
    LowerPreservesOccurs(variant, text);
  }

  /** An empty keyword matches every text, since `'' in s` always holds. */
  lemma EmptyKeywordMatchesEverything(table: Table, emojis: seq<Emoji>, text: string)
    ensures "" in MatchedKeywords(Added(table, "", emojis), Lower(text))
  {
    EmptyOccursEverywhere(Lower(text));
  }

  /** The built-in table holds the keywords that shadow lexicon words. */
  lemma ShadowingKeywordsPresent()
    ensures "sad" in DefaultTable() && "beautiful" in DefaultTable() && "amazing" in DefaultTable()
    ensures "love" in DefaultTable() && "red" in DefaultTable()
  {
    assert "sad" in EmotionsAndExpressions && "beautiful" in EmotionsAndExpressions;
    assert "amazing" in EmotionsAndExpressions && "love" in EmotionsAndExpressions;
    assert "red" in Colors;
  }

  /**
    Lexicon words that contain a keyword can never count on the sentiment
    path, which is only reached when no keyword occurs. With the built-in
    table (see ShadowingKeywordsPresent) this silences 'sad', 'beautiful' and
    'amazing', which are keywords themselves, 'lovely', which contains 'love',
    and 'incredible', which contains 'red'.
   */
  lemma ShadowedLexiconWords(table: Table, lowered: string)
    requires "sad" in table && "beautiful" in table && "amazing" in table
    requires "love" in table && "red" in table
    requires MatchedKeywords(table, lowered) == {}
    ensures !Occurs("sad", lowered) && !Occurs("beautiful", lowered) && !Occurs("amazing", lowered)
    ensures !Occurs("lovely", lowered) && !Occurs("incredible", lowered)
  {
    assert "sad" !in MatchedKeywords(table, lowered) && "beautiful" !in MatchedKeywords(table, lowered);
    assert "amazing" !in MatchedKeywords(table, lowered);
    assert OccursAt("love", "lovely", 0);
    assert OccursAt("red", "incredible", 3);
    assert "love" !in MatchedKeywords(table, lowered) && "red" !in MatchedKeywords(table, lowered);
    OccursTransitive("love", "lovely", lowered);
    OccursTransitive("red", "incredible", lowered);
  }

  /** `picks` enumerates, without repetition, one candidate chosen for each matched keyword. */
  ghost predicate PicksFor(table: Table, lowered: string, picks: seq<Emoji>)
  {
    && Distinct(picks)
    && exists choice :: IsChoice(table, lowered, choice) && forall e :: e in picks <==> e in choice.Values
  }

  /** There is a pick exactly when a keyword matched, and never more picks than matched keywords. */
  lemma PicksProperties(table: Table, lowered: string, picks: seq<Emoji>)
    requires PicksFor(table, lowered, picks)
    ensures picks == [] <==> MatchedKeywords(table, lowered) == {}
    ensures |picks| <= |MatchedKeywords(table, lowered)|
  {
    var choice :| IsChoice(table, lowered, choice) && forall e :: e in picks <==> e in choice.Values;
    ChoiceProperties(table, lowered, choice);
    DistinctCardinality(picks, choice.Values);
  }

  /** Cutting the picks down to `maxEmojis` of them gives a keyword-path answer. */
  lemma LimitedPicksOutcome(table: Table, lowered: string, picks: seq<Emoji>, maxEmojis: int, r: seq<Emoji>)
    requires PicksFor(table, lowered, picks)
    requires |r| == Min(|picks|, maxEmojis)
    requires forall e :: e in r ==> e in picks
    ensures KeywordOutcome(table, lowered, maxEmojis, r)
  {
    var choice :| IsChoice(table, lowered, choice) && forall e :: e in picks <==> e in choice.Values;
    DistinctCardinality(picks, choice.Values);
    assert IsChoice(table, lowered, choice)
      && (forall e :: e in r ==> e in choice.Values)
      && |r| == Min(|choice.Values|, maxEmojis);
  }

  /**
    The matching loop of `get_emojis_for_content`: each keyword of `table`
    found in `lowered` adds one random candidate to a set (kept here as a
    duplicate-free list). `None` stands for the IndexError `random.choice`
    raises on a matched keyword without candidates.
   */
  method MatchKeywords(table: Table, lowered: string) returns (picks: Option<seq<Emoji>>)
    ensures picks.None? <==> HasEmptyCandidates(table, lowered)
    ensures picks.Some? ==> PicksFor(table, lowered, picks.value)
  {
    var matched: seq<Emoji> := [];
    var unvisited := table.Keys;
    ghost var choice: map<string, Emoji> := map[];
    while unvisited != {}
      invariant unvisited <= table.Keys
      invariant forall k :: k in choice <==> k in table && k !in unvisited && Occurs(k, lowered)
      invariant forall k :: k in choice ==> choice[k] in table[k]
      invariant Distinct(matched)
      invariant forall e :: e in matched <==> e in choice.Values
      decreases unvisited
    {
      var keyword :| keyword in unvisited;
      if Contains(lowered, keyword) {
        var pick := Choice(table[keyword]);
        if pick.None? {
          assert keyword in MatchedKeywords(table, lowered);
          return None;
        }
        if pick.value !in matched {
          matched := matched + [pick.value];
        }
        choice := choice[keyword := pick.value];
      }
      unvisited := unvisited - {keyword};
    }
    assert IsChoice(table, lowered, choice);
    assert PicksFor(table, lowered, matched);
    return Some(matched);
  }

  /**
    The down-sampling step of `get_emojis_for_content`: a list longer than
    `maxEmojis` is replaced by a random sample of `maxEmojis` of its entries.
    `None` stands for the ValueError `random.sample` raises on a negative size.
   */
  method LimitPicks(emojiList: seq<Emoji>, maxEmojis: int) returns (r: Option<seq<Emoji>>)
    ensures r.None? <==> |emojiList| > maxEmojis && maxEmojis < 0
    ensures r.Some? ==> |r.value| == Min(|emojiList|, maxEmojis)
    ensures r.Some? ==> forall e :: e in r.value ==> e in emojiList
    ensures r.Some? && |emojiList| <= maxEmojis ==> r.value == emojiList
    ensures r.Some? && Distinct(emojiList) ==> Distinct(r.value)
  {
    if |emojiList| > maxEmojis {
      r := Sample(emojiList, maxEmojis);
      if r.Some? {
        forall e | e in r.value ensures e in emojiList {
          assert multiset(r.value)[e] > 0;
        }
      }
    } else {
      r := Some(emojiList);
    }
  }

  /** The bot's mapper: the keyword table is the one piece of state it updates. */
  class EmojiMapper {
    var mappings: Table

    constructor ()
      ensures mappings == DefaultTable()
      ensures KeysLowercase(mappings) && CandidatesNonEmpty(mappings)
    {
      new;
      mappings := DefaultTable();
    }

    /**
      `get_emojis_for_content`. Empty text gives the fallback prefix. Otherwise
      every keyword occurring in the lowercased text contributes one random
      candidate to a set; a non-empty set is returned whole or as a random
      subset of `maxEmojis` of its members; an empty one defers to the
      sentiment fallback. Any exception (an empty candidate list, a negative
      sample size) yields the fallback prefix.
     */
    method GetEmojisForContent(analysisText: string, maxEmojis: int := 3) returns (r: seq<Emoji>)
      ensures analysisText == [] ==> r == Take(FallbackEmojis, maxEmojis)
      ensures analysisText != [] && HasEmptyCandidates(mappings, Lower(analysisText)) ==>
        r == Take(FallbackEmojis, maxEmojis)
      ensures analysisText != [] && MatchedKeywords(mappings, Lower(analysisText)) != {} && maxEmojis < 0 ==>
        r == Take(FallbackEmojis, maxEmojis)
      ensures analysisText != [] && !HasEmptyCandidates(mappings, Lower(analysisText))
              && MatchedKeywords(mappings, Lower(analysisText)) != {} && maxEmojis >= 0 ==>
        KeywordOutcome(mappings, Lower(analysisText), maxEmojis, r)
      ensures analysisText != [] && MatchedKeywords(mappings, Lower(analysisText)) == {} ==>
        SentimentOutcome(Lower(analysisText), maxEmojis, r)
      ensures Distinct(r)
      ensures maxEmojis >= 0 ==> |r| <= maxEmojis
      ensures maxEmojis > 0 ==> r != []
    {
      FallbackPrefix(maxEmojis);
      if analysisText == [] {
        return Take(FallbackEmojis, maxEmojis);
      }
      var textLower := Lower(analysisText);
      var picks := MatchKeywords(mappings, textLower);
      if picks.None? {
        // random.choice raised IndexError; the handler answers with the fallback
        return Take(FallbackEmojis, maxEmojis);
      }
      var emojiList := picks.value;
      PicksProperties(mappings, textLower, emojiList);
      if emojiList != [] {
        var limited := LimitPicks(emojiList, maxEmojis);
        if limited.None? {
          // random.sample raised ValueError on a negative size
          return Take(FallbackEmojis, maxEmojis);
        }
        LimitedPicksOutcome(mappings, textLower, emojiList, maxEmojis, limited.value);
        return limited.value;
      }
      r := SentimentEmojis(textLower, maxEmojis);
    }

    method AddCustomMapping(keyword: string, emojis: seq<Emoji>)
      modifies this
      ensures mappings == Added(old(mappings), keyword, emojis)
      ensures KeysLowercase(old(mappings)) ==> KeysLowercase(mappings)
    {
      mappings := mappings[Lower(keyword) := emojis];
    }

    method RemoveMapping(keyword: string)
      modifies this
      ensures mappings == Removed(old(mappings), keyword)
      ensures KeysLowercase(old(mappings)) ==> KeysLowercase(mappings)
    {
      if Lower(keyword) in mappings {
        mappings := mappings - {Lower(keyword)};
      }
    }
  }
}
