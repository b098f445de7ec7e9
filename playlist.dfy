/** The music player's song cursor: the next and previous buttons move `songIndex` over a fixed
    table of five songs; the audio element itself is not modelled. */
module Playlist {

  datatype Song = Song(songName: string, filePath: string, coverPath: string)

  const Songs: seq<Song> := [
    Song("Apna Bana Le", "Apna Bana Le.mp3", "1.png"),
    Song("Maan Meri Jaan", "Maan Meri Jaan.mp3", "2.png"),
    Song("Thousand years", "Thousand years.mp3", "3.png"),
    Song("Tum Hi Ho", "Tum Hi Ho.mp3", "4.png"),
    Song("Ve Haaniyaan", "Ve Haaniyaan.mp3", "5.png")
  ]

  /** The index after the next button: from 4 on it wraps to 0. */
  function NextIndex(i: int): int {
    if i >= 4 then 0 else i + 1
  }

  /** The index after the previous button: it stops at 0. */
  function PreviousIndex(i: int): int {
    if i <= 0 then 0 else i - 1
  }

  datatype Button = NextButton | PreviousButton

  /** The index after pressing the buttons in order. */
  function Press(i: int, buttons: seq<Button>): int
    decreases |buttons|
  {
    if buttons == [] then i
    else Press(if buttons[0] == NextButton then NextIndex(i) else PreviousIndex(i), buttons[1..])
  }

  /** Whatever the buttons pressed, an index in the table stays in the table, so songs[songIndex]
      always names a song. */
  lemma {:induction false} PressStaysInTable(i: int, buttons: seq<Button>)
    requires 0 <= i < |Songs|
    ensures 0 <= Press(i, buttons) < |Songs|
    decreases |buttons|
  {
    if buttons != [] {
      PressStaysInTable(if buttons[0] == NextButton then NextIndex(i) else PreviousIndex(i), buttons[1..]);
    }
  }

  function Repeat(b: Button, n: nat): (r: seq<Button>)
    ensures |r| == n && forall k :: 0 <= k < n ==> r[k] == b
  {
    if n == 0 then [] else [b] + Repeat(b, n - 1)
  }

  /** Next steps through the five songs in table order and comes back to the start. */
  lemma {:induction false} NextWalksTable(i: int, n: nat)
    requires 0 <= i < |Songs|
    ensures Press(i, Repeat(NextButton, n)) == (i + n) % |Songs|
    decreases n
  {
    if n > 0 {
      NextWalksTable(NextIndex(i), n - 1);
      assert Repeat(NextButton, n)[1..] == Repeat(NextButton, n - 1);
    }
  }

  /** Previous counts down to the first song and then stays there. */
  lemma {:induction false} PreviousStopsAtFirst(i: int, n: nat)
    requires 0 <= i
    ensures Press(i, Repeat(PreviousButton, n)) == if i >= n then i - n else 0
    decreases n
  {
    if n > 0 {
      PreviousStopsAtFirst(PreviousIndex(i), n - 1);
      assert Repeat(PreviousButton, n)[1..] == Repeat(PreviousButton, n - 1);
    }
  }

  class Player {
    var songIndex: int

    ghost predicate Valid()
      reads this
    {
      0 <= songIndex < |Songs|
    }

    constructor ()
      ensures Valid() && songIndex == 0
    {
      songIndex := 0;
    }

    /** The song whose file and name the player shows. */
    function Current(): Song
      reads this
      requires Valid()
    {
      Songs[songIndex]
    }

    /** The next button's handler: the new index, and the song it loads. */
    method Next() returns (song: Song)
      requires Valid()
      modifies this
      ensures Valid()
      ensures songIndex == NextIndex(old(songIndex))
      ensures song == Songs[songIndex]
    {
      if songIndex >= 4 {
        songIndex := 0;
      } else {
        songIndex := songIndex + 1;
      }
      song := Songs[songIndex];
    }

    /** The previous button's handler. */
    method Previous() returns (song: Song)
      requires Valid()
      modifies this
      ensures Valid()
      ensures songIndex == PreviousIndex(old(songIndex))
      ensures song == Songs[songIndex]
    {
      if songIndex <= 0 {
        songIndex := 0;
      } else {
        songIndex := songIndex - 1;
      }
      song := Songs[songIndex];
    }

    /** A song item's play button: the index becomes the item's id (the page's ids are the table
        positions). */
    method PlayItem(id: int) returns (song: Song)
      requires 0 <= id < |Songs|
      modifies this
      ensures Valid() && songIndex == id && song == Songs[id]
    {
      songIndex := id;
      song := Songs[songIndex];
    }
  }
}
