/**
 * The sidebar: the display form of an artwork title, the velocity inputs,
 * the particle presets and the particle whose speed is nearest the
 * current one.
 */
module Sidebar {
  import opened Options
  import opened Text
  import opened Store
  import opened Motion

  predicate IsSeparator(c: char) {
    c == '-' || c == '_'
  }

  /** `title.replace(/[-_]/g, ' ')`: every dash and underscore becomes a space. */
  function ReplaceSeparators(s: string): (r: string)
    ensures |r| == |s|
    ensures forall i :: 0 <= i < |s| ==> r[i] == (if IsSeparator(s[i]) then ' ' else s[i])
  {
    if s == [] then [] else [if IsSeparator(s[0]) then ' ' else s[0]] + ReplaceSeparators(s[1..])
  }

  /** `word.charAt(0).toUpperCase() + word.slice(1).toLowerCase()`. */
  function Capitalize(word: string): (r: string)
    ensures |r| == |word|
    ensures |word| > 0 ==> r[0] == ToUpper(word[0])
    ensures forall k :: 1 <= k < |word| ==> r[k] == ToLower(word[k])
  {
    if word == [] then [] else [ToUpper(word[0])] + LowerAll(word[1..])
  }

  /** `words.map(Capitalize)`. */
  function CapitalizeAll(words: seq<string>): seq<string> {
    seq(|words|, k requires 0 <= k < |words| => Capitalize(words[k]))
  }

  /** `formatArtworkTitle`: kebab-case or snake_case to Title Case. */
  function FormatArtworkTitle(title: string): string {
    Join(CapitalizeAll(Split(ReplaceSeparators(title))))
  }

  /**
   * What title casing puts at position `i` of `t`: a space stays a space,
   * the first character of a word is upper-cased, any other is lower-cased.
   */
  function TitleChar(t: string, i: nat): char
    requires i < |t|
  {
    if t[i] == ' ' then ' '
    else if i == 0 || t[i - 1] == ' ' then ToUpper(t[i])
    else ToLower(t[i])
  }

  /** Title casing position by position: the reference for the split/map/join pipeline. */
  function TitleCase(t: string): (r: string)
    ensures |r| == |t| && forall i :: 0 <= i < |t| ==> r[i] == TitleChar(t, i)
  {
    seq(|t|, i requires 0 <= i < |t| => TitleChar(t, i))
  }

  /** A word without spaces is title-cased by capitalising it. */
  lemma CapitalizeIsTitleCase(w: string)
    requires forall j :: 0 <= j < |w| ==> w[j] != ' '
    ensures Capitalize(w) == TitleCase(w)
  {
  }

  /** Title casing splits at the first space into the first word and the rest. */
  lemma TitleCaseAtFirstSpace(t: string, i: nat)
    requires i < |t| && t[i] == ' '
    requires forall j :: 0 <= j < i ==> t[j] != ' '
    ensures Capitalize(t[..i]) + " " + TitleCase(t[i + 1..]) == TitleCase(t)
  {
    var rest := t[i + 1..];
    var r := Capitalize(t[..i]) + " " + TitleCase(rest);
    CapitalizeIsTitleCase(t[..i]);
    forall k | 0 <= k < |t| ensures r[k] == TitleChar(t, k) {
      if k < i {
        assert r[k] == TitleCase(t[..i])[k];
      } else if k > i + 1 {
        assert rest[k - i - 1] == t[k] && rest[k - i - 2] == t[k - 1];
      }
    }
  }

  /** Splitting at spaces, capitalising each word and joining is title casing. */
  lemma {:induction false} CapitalizedWordsAreTitleCase(t: string)
    ensures Join(CapitalizeAll(Split(t))) == TitleCase(t)
    decreases |t|
  {
    match IndexOf(t, " ")
    case None =>
      forall j | 0 <= j < |t| ensures t[j] != ' ' { CharOccursAt(t, ' ', j); }
      assert Split(t) == [t];
      assert CapitalizeAll([t]) == [Capitalize(t)];
      CapitalizeIsTitleCase(t);
    case Some(i) =>
      var w, rest := t[..i], t[i + 1..];
      forall j | 0 <= j < i ensures t[j] != ' ' { CharOccursAt(t, ' ', j); }
      CharOccursAt(t, ' ', i);
      assert Split(t) == [w] + Split(rest);
      CapitalizedJoinStep(w, Split(rest));
      CapitalizedWordsAreTitleCase(rest);
      TitleCaseAtFirstSpace(t, i);
  }

  /** Capitalising a leading word and joining puts it before the joined rest. */
  lemma CapitalizedJoinStep(w: string, words: seq<string>)
    requires |words| >= 1
    ensures Join(CapitalizeAll([w] + words)) == Capitalize(w) + " " + Join(CapitalizeAll(words))
  {
    var tail := CapitalizeAll(words);
    assert CapitalizeAll([w] + words) == [Capitalize(w)] + tail;
    assert ([Capitalize(w)] + tail)[1..] == tail;
  }

  /** The title display is title casing of the title with its separators turned into spaces. */
  lemma FormatArtworkTitleIsTitleCase(title: string)
    ensures FormatArtworkTitle(title) == TitleCase(ReplaceSeparators(title))
  {
    CapitalizedWordsAreTitleCase(ReplaceSeparators(title));
  }

  /** A character that title casing leaves is a space exactly when it was one. */
  lemma CaseMappingKeepsSpaces(c: char)
    ensures ToUpper(c) == ' ' <==> c == ' '
    ensures ToLower(c) == ' ' <==> c == ' '
  {
  }

  /**
   * The display title is as long as the title, has a space exactly where
   * the title has a dash, an underscore or a space, and contains no dash
   * or underscore.
   */
  lemma FormatArtworkTitleShape(title: string)
    ensures |FormatArtworkTitle(title)| == |title|
    ensures forall i :: 0 <= i < |title| ==>
      (FormatArtworkTitle(title)[i] == ' ' <==> title[i] == '-' || title[i] == '_' || title[i] == ' ')
    ensures forall i :: 0 <= i < |title| ==> !IsSeparator(FormatArtworkTitle(title)[i])
  {
    FormatArtworkTitleIsTitleCase(title);
    var t := ReplaceSeparators(title);
    forall i | 0 <= i < |title|
      ensures FormatArtworkTitle(title)[i] == ' ' <==> title[i] == '-' || title[i] == '_' || title[i] == ' '
      ensures !IsSeparator(FormatArtworkTitle(title)[i])
    {
      CaseMappingKeepsSpaces(t[i]);
    }
  }

  /**
   * Every word of the display title starts with a character that is not a
   * lower-case letter and continues with characters that are not
   * upper-case letters.
   */
  lemma FormatArtworkTitleWordCase(title: string)
    ensures var o := FormatArtworkTitle(title);
      forall i :: 0 <= i < |o| && o[i] != ' ' ==>
        if i == 0 || o[i - 1] == ' ' then !IsLowerAscii(o[i]) else !IsUpperAscii(o[i])
  {
    FormatArtworkTitleShape(title);
    FormatArtworkTitleIsTitleCase(title);
  }

  /** Formatting a display title again changes nothing. */
  lemma FormatArtworkTitleIdempotent(title: string)
    ensures FormatArtworkTitle(FormatArtworkTitle(title)) == FormatArtworkTitle(title)
  {
    var o := FormatArtworkTitle(title);
    var t := ReplaceSeparators(title);
    FormatArtworkTitleShape(title);
    FormatArtworkTitleIsTitleCase(title);
    FormatArtworkTitleIsTitleCase(o);
    assert ReplaceSeparators(o) == o;
    forall i | 0 <= i < |o| ensures TitleChar(o, i) == o[i] {
      CaseMappingKeepsSpaces(t[i]);
      if i > 0 { CaseMappingKeepsSpaces(t[i - 1]); }
    }
  }

  /**
   * The largest value a velocity input accepts. The handler writes its own
   * literal; it happens to agree with the render-time cap `Motion.MaxSpeed`.
   */
  const MaxInputSpeed: real := 0.9999

  /** The axis a velocity input belongs to. */
  datatype Axis = X | Y

  /**
   * The value a velocity input sets, if any: the parsed number (`None`
   * stands for `NaN`) is taken only when it lies in [0, 0.9999].
   */
  function AcceptVelocity(parsed: Option<real>): (r: Option<real>)
    ensures r.Some? <==> parsed.Some? && 0.0 <= parsed.value <= MaxInputSpeed
    ensures r.Some? ==> r == parsed
  {
    if parsed.Some? && 0.0 <= parsed.value <= MaxInputSpeed then parsed else None
  }

  /** A speed preset of the quick-reference list. */
  datatype Particle = Particle(name: string, velocity: real, description: string)

  const ParticleReferences: seq<Particle> := [
    Particle("Commercial Jet", 0.0000009, "Commercial aircraft cruising speed"),
    Particle("Space Shuttle", 0.00003, "Space Shuttle orbital velocity"),
    Particle("Electron in TV", 0.3, "Electrons in a cathode ray tube"),
    Particle("Muon", 0.9994, "Cosmic ray muons"),
    Particle("LHC Proton", 0.99999999, "Protons in the Large Hadron Collider")
  ]

  /**
   * Every preset is slower than light, but the LHC proton is faster than the
   * 0.9999 that the velocity inputs accept.
   */
  lemma ParticleSpeeds()
    ensures forall p :: p in ParticleReferences ==> 0.0 <= p.velocity < 1.0
    ensures ParticleReferences[4].velocity > MaxInputSpeed
  {
  }

  /** `Math.abs(v - particle.velocity)`. */
  function Distance(v: real, p: Particle): (r: real)
    ensures r >= 0.0 && (r == v - p.velocity || r == p.velocity - v)
  {
    if v < p.velocity then p.velocity - v else v - p.velocity
  }

  /**
   * The `reduce` from position `k` on, with `ps[best]` kept so far: a
   * particle replaces the kept one only when it is strictly nearer.
   */
  function ClosestFrom(ps: seq<Particle>, v: real, best: nat, k: nat): (r: nat)
    requires best < |ps| && k <= |ps|
    requires forall j :: 0 <= j < k ==> Distance(v, ps[best]) <= Distance(v, ps[j])
    requires forall j :: 0 <= j < best ==> Distance(v, ps[j]) > Distance(v, ps[best])
    ensures r < |ps|
    ensures forall j :: 0 <= j < |ps| ==> Distance(v, ps[r]) <= Distance(v, ps[j])
    ensures forall j :: 0 <= j < r ==> Distance(v, ps[j]) > Distance(v, ps[r])
    decreases |ps| - k
  {
    if k == |ps| then best
    else ClosestFrom(ps, v, if Distance(v, ps[k]) < Distance(v, ps[best]) then k else best, k + 1)
  }

  /**
   * `ps.reduce(nearer, ps[0])`, as the index of the result: a particle at
   * the least distance from `v`, the earliest one on ties.
   */
  function Closest(ps: seq<Particle>, v: real): (i: nat)
    requires |ps| > 0
    ensures i < |ps|
    ensures forall j :: 0 <= j < |ps| ==> Distance(v, ps[i]) <= Distance(v, ps[j])
    ensures forall j :: 0 <= j < i ==> Distance(v, ps[j]) > Distance(v, ps[i])
  {
    ClosestFrom(ps, v, 0, 0)
  }

  /** Nearest and earliest among the nearest determine the index. */
  lemma ClosestUnique(ps: seq<Particle>, v: real, i: nat)
    requires i < |ps|
    requires forall j :: 0 <= j < |ps| ==> Distance(v, ps[i]) <= Distance(v, ps[j])
    requires forall j :: 0 <= j < i ==> Distance(v, ps[j]) > Distance(v, ps[i])
    ensures Closest(ps, v) == i
  {
  }

  /** The sidebar's `closestParticle`, for a velocity of magnitude `m`: it compares the capped speed. */
  function ClosestParticle(m: real): (p: Particle)
    ensures p in ParticleReferences
  {
    ParticleReferences[Closest(ParticleReferences, CapSpeed(m))]
  }

  /** At rest the nearest preset is the jet. */
  lemma ClosestParticleAtRest()
    ensures ClosestParticle(0.0).name == "Commercial Jet"
  {
    ClosestUnique(ParticleReferences, CapSpeed(0.0), 0);
  }

  /** At the speed cap the nearest preset is the LHC proton. */
  lemma ClosestParticleAtCap()
    ensures ClosestParticle(1.0).name == "LHC Proton"
  {
    ClosestUnique(ParticleReferences, CapSpeed(1.0), 4);
  }

  /** Both velocity components lie in [0, 1): nothing reaches the speed of light. */
  ghost predicate BelowLight(store: RelativityStore)
    reads store
  {
    0.0 <= store.velocityX < 1.0 && 0.0 <= store.velocityY < 1.0
  }

  class Sidebar {
    const store: RelativityStore
    /** The text of the horizontal velocity input. */
    var inputX: string
    /** The text of the vertical velocity input. */
    var inputY: string
    var selectedParticle: Option<string>

    /** `inputX` and `inputY` start as the formatted velocities of the store. */
    constructor (store: RelativityStore, inputX: string, inputY: string)
      ensures this.store == store && this.inputX == inputX && this.inputY == inputY
      ensures selectedParticle == None
    {
      this.store, this.inputX, this.inputY, selectedParticle := store, inputX, inputY, None;
    }

    /**
     * `handleVelocityInput(value, axis)`, with `parsed` the result of
     * `parseFloat(value)`: an accepted value sets the velocity and the text of
     * that axis only; anything else is ignored.
     */
    method HandleVelocityInput(value: string, parsed: Option<real>, axis: Axis)
      modifies this, store
      ensures store.currentArt == old(store.currentArt) && selectedParticle == old(selectedParticle)
      ensures AcceptVelocity(parsed).None? ==>
        store.velocityX == old(store.velocityX) && store.velocityY == old(store.velocityY) &&
        inputX == old(inputX) && inputY == old(inputY)
      ensures AcceptVelocity(parsed).Some? && axis == X ==>
        store.velocityX == parsed.value && inputX == value &&
        store.velocityY == old(store.velocityY) && inputY == old(inputY)
      ensures AcceptVelocity(parsed).Some? && axis == Y ==>
        store.velocityY == parsed.value && inputY == value &&
        store.velocityX == old(store.velocityX) && inputX == old(inputX)
      ensures old(BelowLight(store)) ==> BelowLight(store)
    {
      var accepted := AcceptVelocity(parsed);
      if accepted.Some? {
        if axis == X {
          store.SetVelocityX(accepted.value);
          inputX := value;
        } else {
          store.SetVelocityY(accepted.value);
          inputY := value;
        }
      }
    }

    /**
     * `handleParticleSelect(particle)`: marks the particle and moves at its
     * speed along x, with no vertical velocity. The speed is not capped.
     */
    method HandleParticleSelect(p: Particle)
      modifies this, store
      ensures selectedParticle == Some(p.name)
      ensures store.velocityX == p.velocity && store.velocityY == 0.0
      ensures store.currentArt == old(store.currentArt)
      ensures inputX == old(inputX) && inputY == old(inputY)
      ensures p in ParticleReferences ==> BelowLight(store)
    {
      selectedParticle := Some(p.name);
      store.SetVelocityX(p.velocity);
      store.SetVelocityY(0.0);
      ParticleSpeeds();
    }
  }
}
