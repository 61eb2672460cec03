/** A word submission (src/handlers/SubmitWordHandler.ts): the word scores its
    length, which is added to the submitting player's score. The board and the
    word's path are left as they are. */
module SubmitWord {
  import opened Common
  import opened Letters
  import opened RoomManager

  /** calculateWordScore: the word's JavaScript length, whatever the letters:
      one point per character, two for a character outside the Basic
      Multilingual Plane. */
  function CalculateWordScore(word: string): (score: nat)
    ensures |word| <= score <= 2 * |word|
  {
    Utf16Length(word)
  }

  /** The length score ignores the letters' values and case, the score of two
      words written one after the other is the sum of their scores, and a word
      of Basic Multilingual Plane characters scores one point per character. */
  lemma LengthScoreProperties(a: string, b: string)
    ensures CalculateWordScore(Lower(a)) == CalculateWordScore(a)
    ensures CalculateWordScore(a + b) == CalculateWordScore(a) + CalculateWordScore(b)
    ensures (forall i | 0 <= i < |a| :: a[i] as int < 0x1_0000) ==> CalculateWordScore(a) == |a|
  {
    Utf16LengthLower(a);
    Utf16LengthAppend(a, b);
    Utf16LengthOfBmp(a);
  }

  /** handle: in the room `g`, add the word's score to the score of the player
      stored under `fid`. Nothing changes when the room or the player is
      missing. `score` is the score credited, if any. */
  method Submit(mgr: GameRoomManager, g: GameId, fid: Fid, word: string) returns (score: Option<nat>)
    requires mgr.Valid()
    modifies mgr
    ensures mgr.Valid() && mgr.intervals == old(mgr.intervals) && mgr.nextTimer == old(mgr.nextTimer)
    ensures mgr.effects == old(mgr.effects)
    ensures score.Some? <==> g in old(mgr.rooms) && fid in old(mgr.rooms)[g].players
    ensures score.Some? ==>
      var room := old(mgr.rooms)[g];
      var p := room.players[fid];
      score.value == CalculateWordScore(word) &&
      mgr.rooms == old(mgr.rooms)[g := room.(players := room.players[fid := p.(score := p.score + score.value)])]
    ensures score.None? ==> mgr.rooms == old(mgr.rooms)
    ensures old(mgr.SingleTimerPerRoom()) ==> mgr.SingleTimerPerRoom()
  {
    var room := mgr.GetGameRoom(g);
    if room.None? {
      return None;
    }
    if fid !in room.value.players {
      return None;
    }
    var credit := CalculateWordScore(word);
    var p := room.value.players[fid];
    mgr.rooms := mgr.rooms[g := room.value.(players := room.value.players[fid := p.(score := p.score + credit)])];
    score := Some(credit);
  }

  /** A submission never lowers a score and changes no other player, no other
      field of the player and no board. */
  lemma SubmissionOnlyRaisesOneScore(room: GameRoom, fid: Fid, word: string, k: Fid)
    requires fid in room.players && k in room.players
    ensures var p := room.players[fid];
      var after := room.(players := room.players[fid := p.(score := p.score + CalculateWordScore(word))]);
      after.board == room.board &&
      after.players.Keys == room.players.Keys &&
      (k == fid ==> after.players[k].score >= room.players[k].score &&
                    after.players[k].(score := p.score) == p) &&
      (k != fid ==> after.players[k] == room.players[k])
  {
  }
}
