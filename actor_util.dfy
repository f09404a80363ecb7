/**
 * Helpers that pick an actor's skeleton model from the "Models" settings and derive model
 * file names. The settings registry is an abstract record of eight paths, and the engine's
 * path comparison (VFS::Path::pathEqual) is an abstract predicate passed in.
 */
module ActorUtil {

  import opened Optional

  /** The skeleton model paths of the settings registry's "Models" category. */
  datatype ModelSettings = ModelSettings(
    wolfskin: string,
    wolfskin1st: string,
    baseanimkna: string,
    baseanimkna1st: string,
    baseanimfemale: string,
    baseanimfemale1st: string,
    baseanim: string,
    xbaseanim1st: string)

  /** getActorSkeleton: the skeleton model for an actor's view and traits. */
  function GetActorSkeleton(m: ModelSettings, firstPerson: bool, isFemale: bool, isBeast: bool, isWerewolf: bool): (r: string)
    ensures firstPerson ==> r in {m.wolfskin1st, m.baseanimkna1st, m.baseanimfemale1st, m.xbaseanim1st}
    ensures !firstPerson ==> r in {m.wolfskin, m.baseanimkna, m.baseanimfemale, m.baseanim}
  {
    if !firstPerson then
      if isWerewolf then m.wolfskin
      else if isBeast then m.baseanimkna
      else if isFemale then m.baseanimfemale
      else m.baseanim
    else
      if isWerewolf then m.wolfskin1st
      else if isBeast then m.baseanimkna1st
      else if isFemale then m.baseanimfemale1st
      else m.xbaseanim1st
  }

  // ---------------------------------------------------------------------------------------
  // A reference definition: precedence of traits

  /** An actor trait that decides its skeleton. */
  datatype Trait = Werewolf | Beast | Female

  /** The skeleton families, one per trait and a default. */
  datatype Skeleton = WolfSkeleton | BeastSkeleton | FemaleSkeleton | DefaultSkeleton

  /** The traits from the highest precedence to the lowest. */
  const Precedence: seq<Trait> := [Werewolf, Beast, Female]

  function SkeletonOf(t: Trait): Skeleton
  {
    match t
    case Werewolf => WolfSkeleton
    case Beast => BeastSkeleton
    case Female => FemaleSkeleton
  }

  function Held(isFemale: bool, isBeast: bool, isWerewolf: bool): set<Trait>
  {
    (if isWerewolf then {Werewolf} else {}) + (if isBeast then {Beast} else {}) + (if isFemale then {Female} else {})
  }

  /** The skeleton of the first trait in `order` that the actor holds, or the default one. */
  function Dominant(order: seq<Trait>, held: set<Trait>): (k: Skeleton)
    ensures k == DefaultSkeleton <==> forall i :: 0 <= i < |order| ==> order[i] !in held
    ensures k != DefaultSkeleton ==>
              exists i :: 0 <= i < |order| && order[i] in held && SkeletonOf(order[i]) == k
                          && forall j :: 0 <= j < i ==> order[j] !in held
  {
    if order == [] then DefaultSkeleton
    else if order[0] in held then SkeletonOf(order[0])
    else
      var k := Dominant(order[1..], held);
      assert forall i :: 1 <= i < |order| ==> order[i] == order[1..][i - 1];
      if k != DefaultSkeleton then
        var i :| 0 <= i < |order[1..]| && order[1..][i] in held && SkeletonOf(order[1..][i]) == k
                 && forall j :: 0 <= j < i ==> order[1..][j] !in held;
        assert order[i + 1] in held && SkeletonOf(order[i + 1]) == k;
        k
      else k
  }

  /** The setting that holds a skeleton family for the given view. */
  function Setting(m: ModelSettings, k: Skeleton, firstPerson: bool): string
  {
    match k
    case WolfSkeleton => if firstPerson then m.wolfskin1st else m.wolfskin
    case BeastSkeleton => if firstPerson then m.baseanimkna1st else m.baseanimkna
    case FemaleSkeleton => if firstPerson then m.baseanimfemale1st else m.baseanimfemale
    case DefaultSkeleton => if firstPerson then m.xbaseanim1st else m.baseanim
  }

  /** getActorSkeleton picks the setting of the held trait of highest precedence. */
  lemma SkeletonByPrecedence(m: ModelSettings, firstPerson: bool, isFemale: bool, isBeast: bool, isWerewolf: bool)
    ensures GetActorSkeleton(m, firstPerson, isFemale, isBeast, isWerewolf)
            == Setting(m, Dominant(Precedence, Held(isFemale, isBeast, isWerewolf)), firstPerson)
  {
    var held := Held(isFemale, isBeast, isWerewolf);
    assert Precedence[1..] == [Beast, Female] && [Beast, Female][1..] == [Female] && [Female][1..] == [];
    assert Dominant([Female], held) == if isFemale then FemaleSkeleton else DefaultSkeleton;
    assert Dominant([Beast, Female], held) == if isBeast then BeastSkeleton else Dominant([Female], held);
    assert Dominant(Precedence, held) == if isWerewolf then WolfSkeleton else Dominant([Beast, Female], held);
  }

  /** A werewolf gets the wolf skin whatever its other traits. */
  lemma WerewolfBeatsAll(m: ModelSettings, firstPerson: bool, isFemale: bool, isBeast: bool)
    ensures GetActorSkeleton(m, firstPerson, isFemale, isBeast, true)
            == if firstPerson then m.wolfskin1st else m.wolfskin
  {
  }

  /** Being female is ignored for a beast or a werewolf. */
  lemma FemaleIgnoredForBeastOrWerewolf(m: ModelSettings, firstPerson: bool, isBeast: bool, isWerewolf: bool)
    requires isBeast || isWerewolf
    ensures GetActorSkeleton(m, firstPerson, true, isBeast, isWerewolf)
            == GetActorSkeleton(m, firstPerson, false, isBeast, isWerewolf)
  {
  }

  /** Being a beast is ignored for a werewolf. */
  lemma BeastIgnoredForWerewolf(m: ModelSettings, firstPerson: bool, isFemale: bool)
    ensures GetActorSkeleton(m, firstPerson, isFemale, true, true)
            == GetActorSkeleton(m, firstPerson, isFemale, false, true)
  {
  }

  /**
   * The first-person view consults only the first-person settings, and the third-person view
   * only the third-person ones.
   */
  lemma ViewSelectsItsSettings(m: ModelSettings, m': ModelSettings, isFemale: bool, isBeast: bool, isWerewolf: bool)
    ensures m.wolfskin1st == m'.wolfskin1st && m.baseanimkna1st == m'.baseanimkna1st
            && m.baseanimfemale1st == m'.baseanimfemale1st && m.xbaseanim1st == m'.xbaseanim1st
            ==> GetActorSkeleton(m, true, isFemale, isBeast, isWerewolf) == GetActorSkeleton(m', true, isFemale, isBeast, isWerewolf)
    ensures m.wolfskin == m'.wolfskin && m.baseanimkna == m'.baseanimkna
            && m.baseanimfemale == m'.baseanimfemale && m.baseanim == m'.baseanim
            ==> GetActorSkeleton(m, false, isFemale, isBeast, isWerewolf) == GetActorSkeleton(m', false, isFemale, isBeast, isWerewolf)
  {
  }

  // ---------------------------------------------------------------------------------------
  // Default skeletons

  /** isDefaultActorSkeleton: the model is one of the three third-person base skeletons. */
  function IsDefaultActorSkeleton(m: ModelSettings, model: string, pathEqual: (string, string) -> bool): (r: bool)
    ensures r <==> exists s :: s in [m.baseanimkna, m.baseanimfemale, m.baseanim] && pathEqual(s, model)
  {
    pathEqual(m.baseanimkna, model) || pathEqual(m.baseanimfemale, model) || pathEqual(m.baseanim, model)
  }

  /** No setting other than the three base skeletons is consulted. */
  lemma DefaultSkeletonReadsThreeSettings(m: ModelSettings, m': ModelSettings, model: string, pathEqual: (string, string) -> bool)
    requires m.baseanimkna == m'.baseanimkna && m.baseanimfemale == m'.baseanimfemale && m.baseanim == m'.baseanim
    ensures IsDefaultActorSkeleton(m, model, pathEqual) == IsDefaultActorSkeleton(m', model, pathEqual)
  {
  }

  /**
   * With a reflexive path comparison, every third-person skeleton of a non-werewolf is a
   * default skeleton.
   */
  lemma ThirdPersonNonWerewolfIsDefault(m: ModelSettings, isFemale: bool, isBeast: bool, pathEqual: (string, string) -> bool)
    requires forall p :: pathEqual(p, p)
    ensures IsDefaultActorSkeleton(m, GetActorSkeleton(m, false, isFemale, isBeast, false), pathEqual)
  {
    var r := GetActorSkeleton(m, false, isFemale, isBeast, false);
    assert pathEqual(r, r);
  }

  // ---------------------------------------------------------------------------------------
  // File names

  /** std::string::rfind(c): the position of the last c in s, if any. */
  function RFind(s: string, c: char): (r: Option<nat>)
    ensures r.None? <==> c !in s
    ensures r.Some? ==> r.value < |s| && s[r.value] == c
    ensures r.Some? ==> forall k :: r.value < k < |s| ==> s[k] != c
  {
    if s == [] then None
    else if s[|s| - 1] == c then Some(|s| - 1)
    else
      assert s == s[..|s| - 1] + [s[|s| - 1]];
      RFind(s[..|s| - 1], c)
  }

  /** Where addSuffixBeforeExtension inserts: the last '.', or the end when there is none. */
  function InsertionPoint(filename: string): (p: nat)
    ensures p <= |filename|
    ensures p < |filename| ==> filename[p] == '.'
    ensures forall k :: p < k < |filename| ==> filename[k] != '.'
    ensures p == |filename| <==> '.' !in filename
  {
    match RFind(filename, '.')
    case None => |filename|
    case Some(p) => p
  }

  /** addSuffixBeforeExtension: the suffix inserted before the last '.', or appended. */
  function AddSuffixBeforeExtension(filename: string, suffix: string): (r: string)
    ensures '.' !in filename ==> r == filename + suffix
    ensures |r| == |filename| + |suffix|
  {
    match RFind(filename, '.')
    case None => filename + suffix
    case Some(dotPos) => filename[..dotPos] + suffix + filename[dotPos..]
  }

  /** With a '.', the suffix goes in front of the last one, wherever it is in the path. */
  lemma SuffixBeforeLastDot(filename: string, suffix: string, p: nat)
    requires p < |filename| && filename[p] == '.'
    requires forall k :: p < k < |filename| ==> filename[k] != '.'
    ensures AddSuffixBeforeExtension(filename, suffix) == filename[..p] + suffix + filename[p..]
  {
    assert '.' in filename;
    assert RFind(filename, '.') == Some(p);
  }

  /**
   * The result is the file name cut at its insertion point with the suffix in between:
   * taking the suffix out again gives back the file name.
   */
  lemma RemovingSuffixRestoresFilename(filename: string, suffix: string)
    ensures var r := AddSuffixBeforeExtension(filename, suffix);
            var p := InsertionPoint(filename);
            && r == filename[..p] + suffix + filename[p..]
            && r[..p] == filename[..p]
            && r[p..p + |suffix|] == suffix
            && r[..p] + r[p + |suffix|..] == filename
  {
    var p := InsertionPoint(filename);
    if '.' !in filename {
      assert filename[..p] == filename && filename[p..] == [];
    } else {
      SuffixBeforeLastDot(filename, suffix, p);
    }
    var r := AddSuffixBeforeExtension(filename, suffix);
    assert r[..p] == filename[..p];
    assert r[p..p + |suffix|] == suffix;
    assert r[p + |suffix|..] == filename[p..];
    assert filename[..p] + filename[p..] == filename;
  }

  /** An empty suffix leaves the file name as it is. */
  lemma EmptySuffixIsIdentity(filename: string)
    ensures AddSuffixBeforeExtension(filename, "") == filename
  {
    RemovingSuffixRestoresFilename(filename, "");
  }

  /** The text from the last '.' on (the extension) ends the result. */
  lemma ExtensionEndsResult(filename: string, suffix: string)
    ensures var r := AddSuffixBeforeExtension(filename, suffix);
            var p := InsertionPoint(filename);
            r[|r| - (|filename| - p)..] == filename[p..]
  {
    RemovingSuffixRestoresFilename(filename, suffix);
  }

  /**
   * A suffix without '.' keeps the extension: the result's last '.' is the one the file
   * name had, moved past the suffix, so its extension is the file name's.
   */
  lemma SuffixKeepsExtension(filename: string, suffix: string)
    requires '.' !in suffix
    ensures var r := AddSuffixBeforeExtension(filename, suffix);
            InsertionPoint(r) == InsertionPoint(filename) + |suffix|
            && r[InsertionPoint(r)..] == filename[InsertionPoint(filename)..]
  {
    var r := AddSuffixBeforeExtension(filename, suffix);
    var p := InsertionPoint(filename);
    RemovingSuffixRestoresFilename(filename, suffix);
    assert forall k :: p <= k < p + |suffix| ==> r[k] == suffix[k - p];
    assert forall k :: p + |suffix| <= k < |r| ==> r[k] == filename[k - |suffix|];
    if p < |filename| {
      assert r[p + |suffix|] == '.';
      FirstDotUnique(r, p + |suffix|);
    } else {
      forall k | 0 <= k < |r| ensures r[k] != '.' {
        if k < p {
          assert r[k] == filename[k];
        } else {
          assert r[k] == suffix[k - p];
        }
      }
      assert '.' !in r;
    }
  }

  /** A '.' after which no '.' follows is the insertion point. */
  lemma FirstDotUnique(s: string, p: nat)
    requires p < |s| && s[p] == '.'
    requires forall k :: p < k < |s| ==> s[k] != '.'
    ensures InsertionPoint(s) == p
  {
    assert '.' in s;
  }
}
