/**
 The daemon's name is rewritten before the general name so that `monerod` never
 ends up as `velkavod`. Exactly when the chain keeps to that, for each spelling.
 */
module DaemonName {
  import opened Substitution
  import opened WholeWord
  import opened Chain
  import opened Rules
  import opened Progress

  /** The half-rewritten daemon name, in one of its three spellings. */
  predicate HalfRewritten(s: string) {
    s == "velkavod" || s == "VELKAVOD" || s == "Velkavod"
  }

  /** The daemon name that the spelling stems from. */
  function Daemon(s: string): string {
    if s == "velkavod" then "monerod" else if s == "VELKAVOD" then "MONEROD" else "Monerod"
  }

  /** The index of the entry that rewrites it. */
  function DaemonEntry(s: string): nat {
    if s == "velkavod" then 16 else if s == "VELKAVOD" then 14 else 15
  }

  /** The entry that shortens a whole phrase to `Velkavo`, whatever follows. */
  const PROJECT: nat := 31
  const PROJECT_D: string := "The Monero Projectd"

  /** Judged by two characters, the replacement ends in the general name. */
  predicate EndsInName(rep: string)
    requires |rep| >= 7
  {
    (rep[|rep| - 1] == 'o' || rep[|rep| - 1] == 'O') && (rep[|rep| - 5] == 'l' || rep[|rep| - 5] == 'L')
  }

  predicate EndsIn(t: string, s: string) {
    |s| <= |t| && t[|t| - |s|..] == s
  }

  predicate FromGeneralName(pat: string, rep: string) {
    || (EndsIn(pat, "monero") && EndsIn(rep, "velkavo"))
    || (EndsIn(pat, "MONERO") && EndsIn(rep, "VELKAVO"))
    || (EndsIn(pat, "Monero") && EndsIn(rep, "Velkavo"))
  }

  predicate StrayD(rep: string, q: nat)
    requires q < |rep|
  {
    (rep[q] == 'd' || rep[q] == 'D') && (q < 2 || IsV(rep[q - 2]))
  }

  /** What the proofs use of a plain entry here. */
  predicate Tidy(j: nat, pat: string, rep: string) {
    && |rep| >= 7
    // a `d` of the replacement is not that of a half-rewritten name
    && (forall q | 0 <= q < |rep| :: !StrayD(rep, q))
    // nor does it end in a shorter beginning of one
    && (var c := rep[|rep| - 1];
        && !IsV(c) && c != 'T' && c != 'E' && c != 'l' && c != 'L' && c != 'k' && c != 'K' && c != 'a' && c != 'A'
        && (c == 'e' ==> rep[|rep| - 2] == 's'))
    && (EndsInName(rep) ==> j == PROJECT || (j > 16 && FromGeneralName(pat, rep)))
    && |pat| >= 6 && (pat[0] == 't' ==> rep[0] == 't')
    // one that starts with the name starts with the whole general name only in the last entries
    && (IsV(rep[0]) ==> rep[1] == 'e' || rep[1] == 'E')
    && (rep[0] == 'V' && rep[1] == 'e' && rep[5] == 'v' ==> rep == "Velkavo" && j >= PROJECT)
    && (j < PROJECT ==> 'T' !in pat && |pat| >= 7 && (pat[0] == 'M' && pat[1] == 'o' ==> |pat| == 7 && pat[6] == 'd'))
  }

  lemma CheckpointUrlEnds()
    ensures Tidy(0, "checkpoints.moneropulse.co", "checkpoints.velkavo.com")
    ensures Tidy(1, "checkpoints.moneropulse.net", "checkpoints.velkavo.com")
    ensures Tidy(2, "checkpoints.moneropulse.org", "checkpoints.velkavo.com")
  {
    assert forall q | 0 <= q < 23 :: !StrayD("checkpoints.velkavo.com", q);
  }

  lemma TestpointUrlEnds()
    ensures Tidy(3, "testpoints.moneropulse.co", "testpoints.velkavo.com")
    ensures Tidy(4, "testpoints.moneropulse.net", "testpoints.velkavo.com")
    ensures Tidy(5, "testpoints.moneropulse.org", "testpoints.velkavo.com")
  {
    assert forall q | 0 <= q < 22 :: !StrayD("testpoints.velkavo.com", q);
  }

  lemma UpdateUrlEnds()
    ensures Tidy(6, "updates.moneropulse.ch", "updates.velkavo.com")
    ensures Tidy(7, "updates.moneropulse.co", "updates.velkavo.com")
    ensures Tidy(8, "updates.moneropulse.de", "updates.velkavo.com")
    ensures Tidy(9, "updates.moneropulse.fr", "updates.velkavo.com")
    ensures Tidy(10, "updates.moneropulse.net", "updates.velkavo.com")
    ensures Tidy(11, "updates.moneropulse.org", "updates.velkavo.com")
    ensures Tidy(12, "updates.moneropulse.se", "updates.velkavo.com")
  {
    assert forall q | 0 <= q < 19 :: !StrayD("updates.velkavo.com", q);
  }

  lemma PulseEnd()
    ensures Tidy(13, "moneropulse", "velkavopulse")
  {
    assert forall q | 0 <= q < 12 :: !StrayD("velkavopulse", q);
  }

  lemma DaemonEnds()
    ensures Tidy(14, "MONEROD", "VELKAROD")
    ensures Tidy(15, "Monerod", "Velkarod")
    ensures Tidy(16, "monerod", "velkarod")
  {
    assert forall q | 0 <= q < 8 :: !StrayD("VELKAROD", q);
    assert forall q | 0 <= q < 8 :: !StrayD("Velkarod", q);
    assert forall q | 0 <= q < 8 :: !StrayD("velkarod", q);
  }

  lemma WalletEnds()
    ensures Tidy(17, "monero-wallet-cli", "velkavo-wallet-cli")
    ensures Tidy(18, "monero-wallet-rpc", "velkavo-wallet-rpc")
  {
    assert forall q | 0 <= q < 18 :: !StrayD("velkavo-wallet-cli", q);
    assert forall q | 0 <= q < 18 :: !StrayD("velkavo-wallet-rpc", q);
  }

  lemma ToolEnds()
    ensures Tidy(19, "monero-gen-multisig", "velkavo-gen-multisig")
    ensures Tidy(20, "monero-blockchain", "velkavo-blockchain")
  {
    assert forall q | 0 <= q < 20 :: !StrayD("velkavo-gen-multisig", q);
    assert forall q | 0 <= q < 18 :: !StrayD("velkavo-blockchain", q);
  }

  lemma CryptoEnds()
    ensures Tidy(21, "monero-crypto", "velkavo-crypto")
    ensures Tidy(22, "monero_crypto", "velkavo_crypto")
  {
    assert forall q | 0 <= q < 14 :: !StrayD("velkavo-crypto", q);
    assert forall q | 0 <= q < 14 :: !StrayD("velkavo_crypto", q);
  }

  lemma MessageEnds()
    ensures Tidy(23, "messages-monero", "messages-velkavo")
  {
    assert forall q | 0 <= q < 16 :: !StrayD("messages-velkavo", q);
  }

  lemma OtherMessageEnds()
    ensures Tidy(24, "messages_monero", "messages_velkavo")
  {
    assert forall q | 0 <= q < 16 :: !StrayD("messages_velkavo", q);
  }

  lemma DeviceEnds()
    ensures Tidy(25, "hw.trezor.messages.monero", "hw.trezor.messages.velkavo")
  {
    assert forall q | 0 <= q < 26 :: !StrayD("hw.trezor.messages.velkavo", q);
  }

  lemma SubunitEnds()
    ensures Tidy(26, "millinero", "millivkavo")
    ensures Tidy(27, "micronero", "microvkavo")
  {
    assert forall q | 0 <= q < 10 :: !StrayD("millivkavo", q);
    assert forall q | 0 <= q < 10 :: !StrayD("microvkavo", q);
  }

  lemma MoreSubunitEnds()
    ensures Tidy(28, "nanonero", "nanovkavo")
    ensures Tidy(29, "piconero", "picovkavo")
    ensures Tidy(30, "unsigned_monero_tx", "unsigned_velkavo_tx")
  {
    assert forall q | 0 <= q < 9 :: !StrayD("nanovkavo", q);
    assert forall q | 0 <= q < 9 :: !StrayD("picovkavo", q);
    assert forall q | 0 <= q < 19 :: !StrayD("unsigned_velkavo_tx", q);
  }

  lemma ProjectEnd()
    ensures Tidy(31, "The Monero Project", "Velkavo")
  {
    assert forall q | 0 <= q < 7 :: !StrayD("Velkavo", q);
  }

  lemma UpperNameEnd()
    ensures Tidy(32, "MONERO", "VELKAVO")
  {
    assert forall q | 0 <= q < 7 :: !StrayD("VELKAVO", q);
  }

  lemma TitleNameEnd()
    ensures Tidy(33, "Monero", "Velkavo")
  {
    assert forall q | 0 <= q < 7 :: !StrayD("Velkavo", q);
  }

  lemma LowerNameEnd()
    ensures Tidy(34, "monero", "velkavo")
  {
    assert forall q | 0 <= q < 7 :: !StrayD("velkavo", q);
  }

  lemma UrlsTidy(j: nat)
    requires j < 14
    ensures Tidy(j, REPLACEMENTS[j].pat, REPLACEMENTS[j].rep)
  {
    if j < 3 {
      CheckpointUrlEnds();
    } else if j < 6 {
      TestpointUrlEnds();
    } else if j < 13 {
      UpdateUrlEnds();
    } else {
      PulseEnd();
    }
  }

  lemma NamesTidy(j: nat)
    requires 14 <= j < 21
    ensures Tidy(j, REPLACEMENTS[j].pat, REPLACEMENTS[j].rep)
  {
    if j < 17 {
      DaemonEnds();
    } else if j < 19 {
      WalletEnds();
    } else {
      ToolEnds();
    }
  }

  lemma MessagesTidy(j: nat)
    requires 21 <= j < 25
    ensures Tidy(j, REPLACEMENTS[j].pat, REPLACEMENTS[j].rep)
  {
    if j < 23 {
      CryptoEnds();
    } else if j < 24 {
      MessageEnds();
    } else {
      OtherMessageEnds();
    }
  }

  lemma SubunitsTidy(j: nat)
    requires 25 <= j < 31
    ensures Tidy(j, REPLACEMENTS[j].pat, REPLACEMENTS[j].rep)
  {
    if j < 26 {
      DeviceEnds();
    } else if j < 28 {
      SubunitEnds();
    } else {
      MoreSubunitEnds();
    }
  }

  lemma GeneralTidy(j: nat)
    requires 31 <= j < 35
    ensures Tidy(j, REPLACEMENTS[j].pat, REPLACEMENTS[j].rep)
  {
    if j < 32 {
      ProjectEnd();
    } else if j < 33 {
      UpperNameEnd();
    } else if j < 34 {
      TitleNameEnd();
    } else {
      LowerNameEnd();
    }
  }

  lemma AllTidy(j: nat)
    requires j < TICKER
    ensures Tidy(j, REPLACEMENTS[j].pat, REPLACEMENTS[j].rep)
  {
    if j < 14 {
      UrlsTidy(j);
    } else if j < 21 {
      NamesTidy(j);
    } else if j < 25 {
      MessagesTidy(j);
    } else if j < 31 {
      SubunitsTidy(j);
    } else {
      GeneralTidy(j);
    }
  }

  // --- One step ---

  /** The characters of a half-rewritten name, whatever its spelling. */
  predicate Spelled(s: string) {
    && |s| == 8
    && IsV(s[0]) && (s[1] == 'e' || s[1] == 'E') && (s[2] == 'l' || s[2] == 'L') && (s[3] == 'k' || s[3] == 'K')
    && (s[4] == 'a' || s[4] == 'A') && IsV(s[5]) && (s[6] == 'o' || s[6] == 'O') && (s[7] == 'd' || s[7] == 'D')
  }

  lemma TidyMeets(j: nat, pat: string, rep: string, s: string)
    requires Tidy(j, pat, rep) && Spelled(s)
    ensures MeetsOnlyAtEnd(rep, s)
  {
    forall d | -|s| < d < |rep| && d != |rep| - |s| + 1 ensures Clash(rep, s, d) {
      if d + 7 < |rep| {
        assert !StrayD(rep, d + 7);
        assert s[7] != rep[7 + d] || s[5] != rep[5 + d];
      } else {
        var i := |rep| - 1 - d;
        assert s[i] != rep[i + d] || s[0] != rep[0 + d];
      }
    }
  }

  /** A half-rewritten name overlaps no search string. */
  lemma ApartFromName(j: nat, pat: string, rep: string, p: nat, s: string)
    requires Harmless(j, pat, rep, p) && Spelled(s)
    ensures Apart(pat, s)
  {
    forall d | -|s| < d < |pat| ensures Clash(pat, s, d) {
      if d >= 0 {
        assert s[0] != pat[0 + d];
      } else {
        var i := -d;
        assert s[i] != pat[i + d];
      }
    }
  }

  lemma NoLongerMatch(x: string, pat: string, general: string, c: char)
    requires EndsIn(pat, general) && !Contains(x, general + [c])
    ensures !Contains(x, pat + [c])
  {
    var q := pat + [c];
    if Contains(x, q) {
      var k :| 0 <= k <= |x| && OccursAt(x, q, k);
      var m := k + |pat| - |general|;
      assert q[|pat| - |general|..] == general + [c];
      assert x[m..] == x[k..][|pat| - |general|..];
      ContainsIntro(x, general + [c], m);
    }
  }

  /** The general name that becomes the beginning of `s`. */
  function General(s: string): string {
    if s == "velkavod" then "monero" else if s == "VELKAVOD" then "MONERO" else "Monero"
  }

  lemma SameSpelling(pat: string, rep: string, s: string)
    requires HalfRewritten(s) && FromGeneralName(pat, rep) && EndsIn(rep, s[..7])
    ensures EndsIn(pat, General(s)) && General(s) + [s[7]] == Daemon(s)
  {
    var end := s[..7];
    assert rep[|rep| - 7..] == end;
    assert end[0] == s[0] && end[1] == s[1];
    assert "velkavo"[0] == 'v' && "VELKAVO"[1] == 'E' && "Velkavo"[0] == 'V' && "Velkavo"[1] == 'e';
  }

  /** Where a replacement supplies all but the last letter of a half-rewritten name, the search
      string followed by that letter held the daemon's name. */
  lemma NoDaemonNoMatch(x: string, pat: string, rep: string, s: string)
    requires HalfRewritten(s) && FromGeneralName(pat, rep) && EndsIn(rep, s[..7])
    requires !Contains(x, Daemon(s))
    ensures !Contains(x, pat + [s[7]])
  {
    SameSpelling(pat, rep, s);
    NoLongerMatch(x, pat, General(s), s[7]);
  }

  lemma PlainStep(j: nat, s: string, x: string)
    requires j < TICKER && HalfRewritten(s) && Spelled(s) && !Contains(x, s)
    requires j > DaemonEntry(s) && j != PROJECT ==> !Contains(x, Daemon(s))
    requires j == PROJECT && s == "Velkavod" ==> !Contains(x, PROJECT_D)
    ensures REPLACEMENTS[j].pat != "" && !Contains(Replace(x, REPLACEMENTS[j].pat, REPLACEMENTS[j].rep), s)
  {
    AllTidy(j);
    AllHarmless(j);
    var pat, rep := REPLACEMENTS[j].pat, REPLACEMENTS[j].rep;
    TidyMeets(j, pat, rep, s);
    NameStep(j, pat, rep, s, x);
    NotCompleted(x, pat, rep, s);
  }

  lemma NameStep(j: nat, pat: string, rep: string, s: string, x: string)
    requires Tidy(j, pat, rep) && HalfRewritten(s) && Spelled(s)
    requires j > DaemonEntry(s) && j != PROJECT ==> !Contains(x, Daemon(s))
    requires j == PROJECT ==> pat + "d" == PROJECT_D && rep == "Velkavo"
    requires j == PROJECT && s == "Velkavod" ==> !Contains(x, PROJECT_D)
    ensures Clash(rep, s, |rep| - |s| + 1) || !Contains(x, pat + [s[|s| - 1]])
  {
    if EndsIn(rep, s[..7]) {
      NameAtEnd(rep, s);
      if j == PROJECT {
        assert [s[7]] == "d";
      } else {
        NoDaemonNoMatch(x, pat, rep, s);
      }
    } else {
      NameNotAtEnd(rep, s);
    }
  }

  lemma NameAtEnd(rep: string, s: string)
    requires |rep| >= 7 && Spelled(s) && HalfRewritten(s) && EndsIn(rep, s[..7])
    ensures EndsInName(rep)
    ensures rep == "Velkavo" ==> s == "Velkavod"
  {
    var d := |rep| - 7;
    assert forall i | 0 <= i < 7 :: rep[d..][i] == s[..7][i];
    assert rep[6 + d] == s[6] && rep[2 + d] == s[2] && rep[0 + d] == s[0] && rep[1 + d] == s[1];
  }

  lemma NameNotAtEnd(rep: string, s: string)
    requires |rep| >= 7 && |s| == 8 && !EndsIn(rep, s[..7])
    ensures Clash(rep, s, |rep| - |s| + 1)
  {
    var d := |rep| - 7;
    var i :| 0 <= i < 7 && s[i] != rep[i + d];
  }

  // --- The chain ---

  lemma EntryLeaves(isWord: char -> bool, j: nat, s: string)
    requires LettersAreWord(isWord) && j <= TICKER && Spelled(s)
    ensures Leaves(REPLACEMENTS[j], s)
  {
    TickerEntry(isWord);
    if j < TICKER {
      AllHarmless(j);
      ApartFromName(j, REPLACEMENTS[j].pat, REPLACEMENTS[j].rep, SHIELD[j], s);
      ApartLeaves(REPLACEMENTS[j], s);
    } else {
      var pat := "XMR";
      forall d | -8 < d < 3 ensures Clash(pat, s, d) {
        if d >= 0 {
          assert s[0] != pat[0 + d];
        } else {
          assert s[-d] != pat[0];
        }
      }
    }
  }

  /** A phrase in which a search string other than `The Monero Project` could start only as `Monero` not
      followed by `d`, or at its last character as a `t`. */
  predicate PhraseLike(w: string) {
    && |w| >= 3 && w[0] == 'T' && w[1] == 'h'
    && (forall m | 0 < m < |w| - 1 ::
          Head(w, m) ==> w[m] == 'T' || (w[m] == 'M' && w[m + 1] == 'o' && m + 6 < |w| && w[m + 6] != 'd'))
    && (w[|w| - 1] == 'd' || w[|w| - 1] == 't')
  }

  lemma PhraseMeets(j: nat, pat: string, rep: string, p: nat, w: string)
    requires Harmless(j, pat, rep, p) && Tidy(j, pat, rep) && 'T' !in pat && PhraseLike(w)
    requires pat[0] == 'M' && pat[1] == 'o' ==> (|pat| == 7 && pat[6] == 'd') || 'M' !in w
    ensures Leaves(Plain(pat, rep), w)
  {
    var q := if pat[0] == 't' then 1 else 0;
    assert SharePrefix(pat, rep, q) by { assert q == 1 ==> rep[..1] == [rep[0]] && pat[..1] == [pat[0]]; }
    forall d | -|w| < d < |pat| ensures Clash(pat, w, d) || (d < 0 && |w| + d <= q) {
      PhraseClash(j, pat, rep, p, w, d);
    }
  }

  lemma PhraseClash(j: nat, pat: string, rep: string, p: nat, w: string, d: int)
    requires Harmless(j, pat, rep, p) && 'T' !in pat && PhraseLike(w) && -|w| < d < |pat|
    requires pat[0] == 'M' && pat[1] == 'o' ==> (|pat| == 7 && pat[6] == 'd') || 'M' !in w
    ensures Clash(pat, w, d) || (pat[0] == 't' && |w| + d == 1)
  {
    var m := -d;
    if d >= 0 {
      assert w[0] != pat[0 + d];
    } else if m == |w| - 1 {
      assert pat[0] != 't' ==> w[m] != pat[m + d];
    } else if w[m] != pat[0] || w[m + 1] != pat[1] {
      assert w[m] != pat[m + d] || w[m + 1] != pat[m + 1 + d];
    } else if Head(w, m) {
      assert w[m + 6] != pat[m + 6 + d];
    } else {
      assert w[m + 2] != pat[m + 2 + d];
    }
  }

  /** Such a phrase stays in the text until the turn of the shorter phrase it is built on. */
  lemma PhraseReaches(isWord: char -> bool, t: string, w: string)
    requires PhraseLike(w) && Contains(t, w)
    ensures Contains(TextAfter(isWord, t, PROJECT), w)
  {
    forall m | 0 <= m < PROJECT ensures Leaves(REPLACEMENTS[m], w) {
      AllHarmless(m);
      AllTidy(m);
      PhraseMeets(m, REPLACEMENTS[m].pat, REPLACEMENTS[m].rep, SHIELD[m], w);
    }
    TextKeeps(isWord, t, w, 0, PROJECT);
  }

  lemma PhraseIsPhraseLike()
    ensures PhraseLike(PROJECT_D) && VFree(PROJECT_D)
  {
    PhraseHeads();
    var w := PROJECT_D;
    assert w[4] == 'M' && w[5] == 'o' && w[10] == ' ';
  }

  lemma PhraseHeads()
    ensures (forall m | 0 < m < 18 && m != 4 :: !Head(PROJECT_D, m)) && VFree(PROJECT_D)
  {
    var w := PROJECT_D;
    assert forall m | 0 < m < 18 && m != 4 :: !Head(w, m);
  }

  /** What entry `m` needs in the text to complete `s`; `s` itself if it cannot. */
  function Block(s: string, m: nat): string {
    if m <= DaemonEntry(s) then s
    else if m == PROJECT && s == "Velkavod" then PROJECT_D
    else Daemon(s)
  }

  /** A step brings in no `s` unless the text holds `s` or what the step needs to complete it. */
  lemma StepAvoids(isWord: char -> bool, s: string, m: nat, x: string)
    requires LettersAreWord(isWord) && HalfRewritten(s) && Spelled(s) && m <= TICKER
    requires !Contains(x, s) && !Contains(x, Block(s, m))
    ensures REPLACEMENTS[m].pat != "" && !Contains(Step(isWord, REPLACEMENTS[m], x), s)
  {
    TickerEntry(isWord);
    if m == TICKER {
      TickerStep(isWord, s, x);
    } else {
      AllHarmless(m);
      PlainStep(m, s, x);
    }
  }

  lemma NextAvoids(isWord: char -> bool, s: string, t: string, j: nat)
    requires LettersAreWord(isWord) && HalfRewritten(s) && Spelled(s) && j <= TICKER
    requires s == "Velkavod" ==> !Contains(t, PROJECT_D)
    ensures Proper(REPLACEMENTS) && j < |REPLACEMENTS| && Persists(isWord, REPLACEMENTS, s, t, j)
  {
    ListIsProper();
    if Away(isWord, s, t, j) {
      BlockIsAway(isWord, s, t, j);
      StepAvoids(isWord, s, j, TextAfter(isWord, t, j));
      AfterNext(isWord, t, j);
    }
  }

  lemma DaemonGone(isWord: char -> bool, s: string, t: string, j: nat)
    requires LettersAreWord(isWord)
    requires HalfRewritten(s) && DaemonEntry(s) < j <= TICKER
    ensures !Contains(TextAfter(isWord, t, j), Daemon(s))
  {
    ListIsProper();
    ListIsDisciplined(isWord);
    assert REPLACEMENTS[DaemonEntry(s)].Plain? && REPLACEMENTS[DaemonEntry(s)].pat == Daemon(s);
    CleanSoFar(isWord, REPLACEMENTS, t, DaemonEntry(s), j);
  }

  lemma TickerStep(isWord: char -> bool, s: string, x: string)
    requires LettersAreWord(isWord) && TickerLike(isWord, "XMR", "VKV") && Spelled(s) && !Contains(x, s)
    ensures !Contains(Sub(isWord, x, "XMR", "VKV"), s)
  {
    var rep := "VKV";
    assert rep[0] == 'V' && rep[1] == 'K' && rep[2] == 'V';
    forall d | -8 < d < 2 ensures Clash(rep, s, d) {
      if d == 0 {
        assert s[1] != rep[1 + d];
      } else if d == 1 {
        assert s[0] != rep[0 + d];
      } else if d == -5 {
        assert s[6] != rep[6 + d];
      } else {
        assert s[-d] != rep[-d + d];
      }
    }
    forall m | 0 <= m <= |Sub(isWord, x, "XMR", "VKV")| ensures !OccursAt(Sub(isWord, x, "XMR", "VKV"), s, m) {
      SubCreatesNoneAt(isWord, x, "XMR", "VKV", 0, s, m);
    }
  }

  lemma OnlyThen(isWord: char -> bool, s: string, t: string)
    requires LettersAreWord(isWord)
    requires HalfRewritten(s) && Spelled(s) && !Contains(t, s)
    requires s == "Velkavod" ==> !Contains(t, PROJECT_D)
    ensures !Contains(Rebranded(isWord, t), s)
  {
    ListIsProper();
    forall m | 0 <= m <= TICKER ensures Persists(isWord, REPLACEMENTS, s, t, m) {
      NextAvoids(isWord, s, t, m);
    }
    StaysOut(isWord, REPLACEMENTS, s, t, TICKER + 1);
  }

  lemma BlockIsAway(isWord: char -> bool, s: string, t: string, m: nat)
    requires LettersAreWord(isWord) && HalfRewritten(s) && m <= TICKER
    requires s == "Velkavod" ==> !Contains(t, PROJECT_D)
    ensures Block(s, m) == s || !Contains(TextAfter(isWord, t, m), Block(s, m))
  {
    if m > DaemonEntry(s) {
      if m == PROJECT && s == "Velkavod" {
        PhraseIsPhraseLike();
        VFreeStaysAway(isWord, PROJECT_D, t, PROJECT);
      } else {
        DaemonGone(isWord, s, t, m);
      }
    }
  }

  lemma NameIsKept(isWord: char -> bool, s: string, t: string, i: nat)
    requires LettersAreWord(isWord) && Spelled(s)
    requires i <= TICKER && Contains(TextAfter(isWord, t, i), s)
    ensures Contains(Rebranded(isWord, t), s)
  {
    forall m | i <= m <= TICKER ensures Leaves(REPLACEMENTS[m], s) {
      EntryLeaves(isWord, m, s);
    }
    TextKeeps(isWord, t, s, i, TICKER + 1);
  }

  lemma ProjectNext(isWord: char -> bool, t: string)
    ensures TextAfter(isWord, t, PROJECT + 1) == Replace(TextAfter(isWord, t, PROJECT), "The Monero Project", "Velkavo")
  {
    AfterNext(isWord, t, PROJECT);
    assert REPLACEMENTS[PROJECT] == Plain("The Monero Project", "Velkavo");
  }

  /** The phrase followed by `d` reaches its own step and becomes `Velkavod` there. */
  lemma PhraseCompletes(isWord: char -> bool, t: string)
    requires Contains(t, PROJECT_D)
    ensures Contains(TextAfter(isWord, t, PROJECT + 1), "Velkavod")
  {
    PhraseIsPhraseLike();
    PhraseReaches(isWord, t, PROJECT_D);
    PhraseStepCompletes(TextAfter(isWord, t, PROJECT));
    ProjectNext(isWord, t);
  }

  lemma PhraseStepCompletes(x: string)
    requires Contains(x, PROJECT_D)
    ensures Contains(Replace(x, "The Monero Project", "Velkavo"), "Velkavod")
  {
    var pat, rep := "The Monero Project", "Velkavo";
    var k :| 0 <= k <= |x| && OccursAt(x, PROJECT_D, k);
    assert pat + ['d'] == PROJECT_D && rep + ['d'] == "Velkavod";
    forall d | 0 < d < |pat| ensures Clash(pat, pat, d) {
      assert pat[0] != pat[0 + d];
    }
    CompletedAt(x, pat, rep, 'd', k);
  }

  lemma Spellings(s: string)
    requires HalfRewritten(s)
    ensures Spelled(s)
  {
  }

  /** The half-rewritten daemon name is in the output only if it was in the input -- except that
      `Velkavod` also results from the phrase `The Monero Project` followed by a `d`. */
  lemma HalfRewrittenIff(isWord: char -> bool, s: string, t: string)
    requires LettersAreWord(isWord) && HalfRewritten(s)
    ensures Contains(Rebranded(isWord, t), s)
            <==> Contains(t, s) || (s == "Velkavod" && Contains(t, PROJECT_D))
  {
    Spellings(s);
    if Contains(t, s) {
      NameIsKept(isWord, s, t, 0);
    } else if s == "Velkavod" && Contains(t, PROJECT_D) {
      PhraseCompletes(isWord, t);
      NameIsKept(isWord, s, t, PROJECT + 1);
    } else {
      OnlyThen(isWord, s, t);
    }
  }

  /** So the script's promise fails for that spelling, on an input as short as this. */
  lemma HalfRewrittenExample(isWord: char -> bool)
    requires LettersAreWord(isWord)
    ensures !Contains("The Monero Projectd", "Velkavod")
    ensures Contains(Rebranded(isWord, "The Monero Projectd"), "Velkavod")
  {
    var t, s := PROJECT_D, "Velkavod";
    assert forall k | 0 <= k < |t| :: t[k] != 'V';
    assert s[0] == 'V';
    ContainsIntro(t, t, 0);
    HalfRewrittenIff(isWord, s, t);
  }
}
