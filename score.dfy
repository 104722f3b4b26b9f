/** The score panel: the star rating derived from the move counter, and the three
    star icons that show it. */
module Score {

  /** The number of star icons on the panel. */
  const MaxStars := 3

  /** The move counts up to which the rating keeps three, then two stars. */
  const ThreeStarMoves := 10
  const TwoStarMoves := 20

  /** The two icon classes a star can carry (`fa-star`, `fa-star-o`), and neither. */
  datatype StarIcon = Unstyled | Star | StarBorder

  /** The star rating for a move count. */
  function StarsFor(moves: nat): (stars: nat)
    ensures 1 <= stars <= MaxStars
  {
    if moves <= ThreeStarMoves then MaxStars
    else if moves <= TwoStarMoves then MaxStars - 1
    else MaxStars - 2
  }

  /** Three stars up to 10 moves, two up to 20, one beyond: both directions of each step. */
  lemma StarThresholds(moves: nat)
    ensures StarsFor(moves) == 3 <==> moves <= 10
    ensures StarsFor(moves) == 2 <==> 10 < moves <= 20
    ensures StarsFor(moves) == 1 <==> 20 < moves
  {
  }

  /** More moves never earn more stars. */
  lemma StarsNonIncreasing(fewer: nat, more: nat)
    requires fewer <= more
    ensures StarsFor(more) <= StarsFor(fewer)
  {
  }

  /** The icons shown for a rating: `stars` full stars, then bordered ones. */
  function StarDisplay(stars: nat): (icons: seq<StarIcon>)
    requires stars <= MaxStars
    ensures |icons| == MaxStars
    ensures forall k :: 0 <= k < MaxStars ==> icons[k] != Unstyled
    ensures forall k, l :: 0 <= k < l < MaxStars && icons[l] == Star ==> icons[k] == Star
  {
    seq(MaxStars, k requires 0 <= k < MaxStars => if k < stars then Star else StarBorder)
  }

  /** The display holds exactly `stars` full stars and `3 - stars` bordered ones. */
  lemma StarDisplayCounts(stars: nat)
    requires stars <= MaxStars
    ensures multiset(StarDisplay(stars))[Star] == stars
    ensures multiset(StarDisplay(stars))[StarBorder] == MaxStars - stars
  {
    var icons := StarDisplay(stars);
    if stars == 0 {
      assert icons == [StarBorder, StarBorder, StarBorder];
    } else if stars == 1 {
      assert icons == [Star, StarBorder, StarBorder];
    } else if stars == 2 {
      assert icons == [Star, Star, StarBorder];
    } else {
      assert icons == [Star, Star, Star];
    }
  }
}
