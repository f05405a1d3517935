/**
 What each entry of the list stands for: its search string, anywhere in a text that
 otherwise has nothing to do with the list, becomes its replacement in the end,
 although all other entries have their turn as well.
 */
module Entries {
  import opened Substitution
  import opened WholeWord
  import opened Chain
  import opened Rules

  /** The middle of every form of the old name: `er`, or in capitals. */
  predicate CoreAt(s: string, k: nat) {
    k + 1 < |s| && ((s[k] == 'e' && s[k + 1] == 'r') || (s[k] == 'E' && s[k + 1] == 'R'))
  }

  /** Neither that nor an `X`. */
  predicate Bare(s: string, k: nat)
    requires k < |s|
  {
    !CoreAt(s, k) && s[k] != 'X'
  }

  /** The character at distance `d` from the middle, or `|` beyond the ends. */
  function At(s: string, c: nat, d: int): char {
    if 0 <= c + d < |s| then s[c + d] else '|'
  }

  /** Where the middle of each search string is. */
  function Core(j: nat): nat {
    if j < 3 then 15 else if j < 6 then 14 else if j < 13 then 11 else if j < 23 then 3 else if j < 25 then 12
    else if j == 25 then 22 else if j < 28 then 6 else if j < 30 then 5 else if j == 30 then 12
    else if j == 31 then 7 else 3
  }

  /** What precedes the middle. */
  predicate HeadLooks(j: nat, s: string, c: nat) {
    && At(s, c, -2) == (if j == 14 || j == 32 then 'O' else if j == 26 then 'i' else 'o')
    && At(s, c, -3) == (if j == 14 || j == 15 || 31 <= j <= 33 then 'M' else if j == 26 then 'l'
                        else if j == 27 then 'r' else if j == 28 then 'n' else if j == 29 then 'c' else 'm')
    && (23 <= j < 35 ==> At(s, c, -4) == if j < 32 then "-_.lcai_ "[j - 23] else '|')
    && (j == 24 ==> At(s, c, -5) == 's') && (j == 30 ==> At(s, c, -5) == 'd')
  }

  /** What follows the middle and the `o` after it. */
  predicate TailLooks(j: nat, s: string, c: nat) {
    && At(s, c, 3) == (if j <= 13 then 'p' else if j == 14 then 'D' else if j <= 16 then 'd' else if j <= 21 then '-'
                       else if j == 22 || j == 30 then '_' else if j == 31 then ' ' else '|')
    && (j <= 13 ==> At(s, c, 9) == "cnocnoccdfnos|"[j])
    && (j == 6 ==> At(s, c, 10) == 'h') && (j == 7 ==> At(s, c, 10) == 'o')
    && (17 <= j <= 22 ==> At(s, c, 4) == "wwgbcc"[j - 17]) && (j == 30 ==> At(s, c, 4) == 't')
    && (j == 17 ==> At(s, c, 11) == 'c') && (j == 18 ==> At(s, c, 11) == 'r')
  }

  /** The middle is where it should be and nowhere else, and what surrounds it. */
  predicate Looks(j: nat, s: string, c: nat) {
    CoreAt(s, c) && (forall k | 0 <= k < |s| - 1 && k != c :: !CoreAt(s, k)) && HeadLooks(j, s, c) && TailLooks(j, s, c)
  }

  predicate AllBare(rep: string) {
    forall k | 0 <= k < |rep| :: Bare(rep, k)
  }

  predicate Entry(j: nat, pat: string, rep: string) {
    Looks(j, pat, Core(j)) && AllBare(rep)
  }

  lemma CheckpointsLook()
    ensures Looks(0, "checkpoints.moneropulse.co", 15)
    ensures Looks(1, "checkpoints.moneropulse.net", 15)
  {
    var a := "checkpoints.moneropulse.co";
    assert forall k | 0 <= k < |a| - 1 && k != 15 :: !CoreAt(a, k);
    var b := "checkpoints.moneropulse.net";
    assert forall k | 0 <= k < |b| - 1 && k != 15 :: !CoreAt(b, k);
  }

  lemma CheckpointsAreBare()
    ensures AllBare("checkpoints.velkavo.com")
  {
    var a := "checkpoints.velkavo.com";
    assert forall k | 0 <= k < |a| :: Bare(a, k);
  }

  lemma LastCheckpointsLook()
    ensures Looks(2, "checkpoints.moneropulse.org", 15)
  {
    var a := "checkpoints.moneropulse.org";
    assert forall k | 0 <= k < |a| - 1 && k != 15 :: !CoreAt(a, k);
  }

  lemma TestpointsLook()
    ensures Looks(3, "testpoints.moneropulse.co", 14)
    ensures Looks(4, "testpoints.moneropulse.net", 14)
  {
    var a := "testpoints.moneropulse.co";
    assert forall k | 0 <= k < |a| - 1 && k != 14 :: !CoreAt(a, k);
    var b := "testpoints.moneropulse.net";
    assert forall k | 0 <= k < |b| - 1 && k != 14 :: !CoreAt(b, k);
  }

  lemma TestpointsAreBare()
    ensures AllBare("testpoints.velkavo.com")
  {
    var a := "testpoints.velkavo.com";
    assert forall k | 0 <= k < |a| :: Bare(a, k);
  }

  lemma LastTestpointsLook()
    ensures Looks(5, "testpoints.moneropulse.org", 14)
  {
    var a := "testpoints.moneropulse.org";
    assert forall k | 0 <= k < |a| - 1 && k != 14 :: !CoreAt(a, k);
  }

  lemma UpdatesLook()
    ensures Looks(6, "updates.moneropulse.ch", 11)
    ensures Looks(7, "updates.moneropulse.co", 11)
  {
    var a := "updates.moneropulse.ch";
    assert forall k | 0 <= k < |a| - 1 && k != 11 :: !CoreAt(a, k);
    var b := "updates.moneropulse.co";
    assert forall k | 0 <= k < |b| - 1 && k != 11 :: !CoreAt(b, k);
  }

  lemma UpdatesAreBare()
    ensures AllBare("updates.velkavo.com")
  {
    var a := "updates.velkavo.com";
    assert forall k | 0 <= k < |a| :: Bare(a, k);
  }

  lemma MoreUpdatesLook()
    ensures Looks(8, "updates.moneropulse.de", 11)
    ensures Looks(9, "updates.moneropulse.fr", 11)
  {
    var a := "updates.moneropulse.de";
    assert forall k | 0 <= k < |a| - 1 && k != 11 :: !CoreAt(a, k);
    var b := "updates.moneropulse.fr";
    assert forall k | 0 <= k < |b| - 1 && k != 11 :: !CoreAt(b, k);
  }

  lemma LastUpdatesLook()
    ensures Looks(10, "updates.moneropulse.net", 11)
    ensures Looks(11, "updates.moneropulse.org", 11)
    ensures Looks(12, "updates.moneropulse.se", 11)
  {
    var a := "updates.moneropulse.net";
    assert forall k | 0 <= k < |a| - 1 && k != 11 :: !CoreAt(a, k);
    var b := "updates.moneropulse.org";
    assert forall k | 0 <= k < |b| - 1 && k != 11 :: !CoreAt(b, k);
    var c := "updates.moneropulse.se";
    assert forall k | 0 <= k < |c| - 1 && k != 11 :: !CoreAt(c, k);
  }

  lemma DaemonsLook()
    ensures Looks(13, "moneropulse", 3)
    ensures Looks(14, "MONEROD", 3)
    ensures Looks(15, "Monerod", 3)
    ensures Looks(16, "monerod", 3)
  {
    var a := "moneropulse";
    assert forall k | 0 <= k < |a| - 1 && k != 3 :: !CoreAt(a, k);
    var b := "MONEROD";
    assert forall k | 0 <= k < |b| - 1 && k != 3 :: !CoreAt(b, k);
    var c := "Monerod";
    assert forall k | 0 <= k < |c| - 1 && k != 3 :: !CoreAt(c, k);
    var d := "monerod";
    assert forall k | 0 <= k < |d| - 1 && k != 3 :: !CoreAt(d, k);
  }

  lemma DaemonsAreBare()
    ensures AllBare("velkavopulse")
    ensures AllBare("VELKAROD")
    ensures AllBare("Velkarod")
    ensures AllBare("velkarod")
  {
    var a := "velkavopulse";
    assert forall k | 0 <= k < |a| :: Bare(a, k);
    var b := "VELKAROD";
    assert forall k | 0 <= k < |b| :: Bare(b, k);
    var c := "Velkarod";
    assert forall k | 0 <= k < |c| :: Bare(c, k);
    var d := "velkarod";
    assert forall k | 0 <= k < |d| :: Bare(d, k);
  }

  lemma WalletsLook()
    ensures Looks(17, "monero-wallet-cli", 3)
    ensures Looks(18, "monero-wallet-rpc", 3)
  {
    var a := "monero-wallet-cli";
    assert forall k | 0 <= k < |a| - 1 && k != 3 :: !CoreAt(a, k);
    var b := "monero-wallet-rpc";
    assert forall k | 0 <= k < |b| - 1 && k != 3 :: !CoreAt(b, k);
  }

  lemma WalletsAreBare()
    ensures AllBare("velkavo-wallet-cli")
    ensures AllBare("velkavo-wallet-rpc")
  {
    var a := "velkavo-wallet-cli";
    assert forall k | 0 <= k < |a| :: Bare(a, k);
    var b := "velkavo-wallet-rpc";
    assert forall k | 0 <= k < |b| :: Bare(b, k);
  }

  lemma ToolsLook()
    ensures Looks(19, "monero-gen-multisig", 3)
    ensures Looks(20, "monero-blockchain", 3)
  {
    var a := "monero-gen-multisig";
    assert forall k | 0 <= k < |a| - 1 && k != 3 :: !CoreAt(a, k);
    var b := "monero-blockchain";
    assert forall k | 0 <= k < |b| - 1 && k != 3 :: !CoreAt(b, k);
  }

  lemma ToolsAreBare()
    ensures AllBare("velkavo-gen-multisig")
    ensures AllBare("velkavo-blockchain")
  {
    var a := "velkavo-gen-multisig";
    assert forall k | 0 <= k < |a| :: Bare(a, k);
    var b := "velkavo-blockchain";
    assert forall k | 0 <= k < |b| :: Bare(b, k);
  }

  lemma CryptoLayersLook()
    ensures Looks(21, "monero-crypto", 3)
    ensures Looks(22, "monero_crypto", 3)
  {
    var a := "monero-crypto";
    assert forall k | 0 <= k < |a| - 1 && k != 3 :: !CoreAt(a, k);
    var b := "monero_crypto";
    assert forall k | 0 <= k < |b| - 1 && k != 3 :: !CoreAt(b, k);
  }

  lemma CryptoLayersAreBare()
    ensures AllBare("velkavo-crypto")
    ensures AllBare("velkavo_crypto")
  {
    var a := "velkavo-crypto";
    assert forall k | 0 <= k < |a| :: Bare(a, k);
    var b := "velkavo_crypto";
    assert forall k | 0 <= k < |b| :: Bare(b, k);
  }

  lemma MessagesLook()
    ensures Looks(23, "messages-monero", 12)
    ensures Looks(24, "messages_monero", 12)
    ensures Looks(25, "hw.trezor.messages.monero", 22)
  {
    var a := "messages-monero";
    assert forall k | 0 <= k < |a| - 1 && k != 12 :: !CoreAt(a, k);
    var b := "messages_monero";
    assert forall k | 0 <= k < |b| - 1 && k != 12 :: !CoreAt(b, k);
    var c := "hw.trezor.messages.monero";
    assert forall k | 0 <= k < |c| - 1 && k != 22 :: !CoreAt(c, k);
  }

  lemma MessagesAreBare()
    ensures AllBare("messages-velkavo")
    ensures AllBare("messages_velkavo")
    ensures AllBare("hw.trezor.messages.velkavo")
  {
    var a := "messages-velkavo";
    assert forall k | 0 <= k < |a| :: Bare(a, k);
    var b := "messages_velkavo";
    assert forall k | 0 <= k < |b| :: Bare(b, k);
    var c := "hw.trezor.messages.velkavo";
    assert forall k | 0 <= k < |c| :: Bare(c, k);
  }

  lemma SubunitsLook()
    ensures Looks(26, "millinero", 6)
    ensures Looks(27, "micronero", 6)
    ensures Looks(28, "nanonero", 5)
    ensures Looks(29, "piconero", 5)
  {
    var a := "millinero";
    assert forall k | 0 <= k < |a| - 1 && k != 6 :: !CoreAt(a, k);
    var b := "micronero";
    assert forall k | 0 <= k < |b| - 1 && k != 6 :: !CoreAt(b, k);
    var c := "nanonero";
    assert forall k | 0 <= k < |c| - 1 && k != 5 :: !CoreAt(c, k);
    var d := "piconero";
    assert forall k | 0 <= k < |d| - 1 && k != 5 :: !CoreAt(d, k);
  }

  lemma SubunitsAreBare()
    ensures AllBare("millivkavo")
    ensures AllBare("microvkavo")
    ensures AllBare("nanovkavo")
    ensures AllBare("picovkavo")
  {
    var a := "millivkavo";
    assert forall k | 0 <= k < |a| :: Bare(a, k);
    var b := "microvkavo";
    assert forall k | 0 <= k < |b| :: Bare(b, k);
    var c := "nanovkavo";
    assert forall k | 0 <= k < |c| :: Bare(c, k);
    var d := "picovkavo";
    assert forall k | 0 <= k < |d| :: Bare(d, k);
  }

  lemma FilesLook()
    ensures Looks(30, "unsigned_monero_tx", 12)
  {
    var a := "unsigned_monero_tx";
    assert forall k | 0 <= k < |a| - 1 && k != 12 :: !CoreAt(a, k);
  }

  lemma FilesAreBare()
    ensures AllBare("unsigned_velkavo_tx")
  {
    var a := "unsigned_velkavo_tx";
    assert forall k | 0 <= k < |a| :: Bare(a, k);
  }

  lemma ProjectsLook()
    ensures Looks(31, "The Monero Project", 7)
  {
    var a := "The Monero Project";
    assert forall k | 0 <= k < |a| - 1 && k != 7 :: !CoreAt(a, k);
  }

  lemma ProjectsAreBare()
    ensures AllBare("Velkavo")
  {
    var a := "Velkavo";
    assert forall k | 0 <= k < |a| :: Bare(a, k);
  }

  lemma GeneralsLook()
    ensures Looks(32, "MONERO", 3)
    ensures Looks(33, "Monero", 3)
    ensures Looks(34, "monero", 3)
  {
    var a := "MONERO";
    assert forall k | 0 <= k < |a| - 1 && k != 3 :: !CoreAt(a, k);
    var b := "Monero";
    assert forall k | 0 <= k < |b| - 1 && k != 3 :: !CoreAt(b, k);
    var c := "monero";
    assert forall k | 0 <= k < |c| - 1 && k != 3 :: !CoreAt(c, k);
  }

  lemma GeneralsAreBare()
    ensures AllBare("VELKAVO")
    ensures AllBare("velkavo")
  {
    var a := "VELKAVO";
    assert forall k | 0 <= k < |a| :: Bare(a, k);
    var b := "velkavo";
    assert forall k | 0 <= k < |b| :: Bare(b, k);
  }

  lemma UrlEntries(j: nat)
    requires j < 6
    ensures Entry(j, REPLACEMENTS[j].pat, REPLACEMENTS[j].rep)
  {
    if j < 2 {
      CheckpointsLook();
      CheckpointsAreBare();
    } else if j < 3 {
      LastCheckpointsLook();
      CheckpointsAreBare();
    } else if j < 5 {
      TestpointsLook();
      TestpointsAreBare();
    } else {
      LastTestpointsLook();
      TestpointsAreBare();
    }
  }

  lemma UpdateEntries(j: nat)
    requires 6 <= j < 13
    ensures Entry(j, REPLACEMENTS[j].pat, REPLACEMENTS[j].rep)
  {
    if j < 8 {
      UpdatesLook();
      UpdatesAreBare();
    } else if j < 10 {
      MoreUpdatesLook();
      UpdatesAreBare();
    } else {
      LastUpdatesLook();
      UpdatesAreBare();
    }
  }

  lemma NameEntries(j: nat)
    requires 13 <= j < 23
    ensures Entry(j, REPLACEMENTS[j].pat, REPLACEMENTS[j].rep)
  {
    if j < 17 {
      DaemonsLook();
      DaemonsAreBare();
    } else if j < 19 {
      WalletsLook();
      WalletsAreBare();
    } else if j < 21 {
      ToolsLook();
      ToolsAreBare();
    } else {
      CryptoLayersLook();
      CryptoLayersAreBare();
    }
  }

  lemma OtherEntries(j: nat)
    requires 23 <= j < 30
    ensures Entry(j, REPLACEMENTS[j].pat, REPLACEMENTS[j].rep)
  {
    if j < 26 {
      MessagesLook();
      MessagesAreBare();
    } else {
      SubunitsLook();
      SubunitsAreBare();
    }
  }

  lemma LastEntries(j: nat)
    requires 30 <= j < 35
    ensures Entry(j, REPLACEMENTS[j].pat, REPLACEMENTS[j].rep)
  {
    if j < 31 {
      FilesLook();
      FilesAreBare();
    } else if j < 32 {
      ProjectsLook();
      ProjectsAreBare();
    } else {
      GeneralsLook();
      GeneralsAreBare();
      ProjectsAreBare();
    }
  }

  lemma AllEntries(j: nat)
    requires j < TICKER
    ensures IsPlain(j) && Entry(j, REPLACEMENTS[j].pat, REPLACEMENTS[j].rep)
  {
    AllHarmless(j);
    if j < 6 {
      UrlEntries(j);
    } else if j < 13 {
      UpdateEntries(j);
    } else if j < 23 {
      NameEntries(j);
    } else if j < 30 {
      OtherEntries(j);
    } else {
      LastEntries(j);
    }
  }

  // --- No search string contains an earlier one ---

  /** Aligned at their middles, the first string differs from the second or sticks out of it. */
  predicate Differs(p: string, c: nat, s: string, e: nat, d: int) {
    0 <= c + d < |p| && At(p, c, d) != At(s, e, d) && At(p, c, d) != '|'
  }

  lemma NotInside(p: string, c: nat, s: string, e: nat, d: int)
    requires CoreAt(p, c) && (forall k | 0 <= k < |s| - 1 && k != e :: !CoreAt(s, k))
    requires c > e || Differs(p, c, s, e, d)
    ensures !Contains(s, p)
  {
    forall k | 0 <= k <= |s| ensures !OccursAt(s, p, k) {
      if p <= s[k..] {
        assert forall m | 0 <= m < |p| :: p[m] == s[k + m];
        assert CoreAt(s, k + c);
      }
    }
  }

  lemma UrlNotInside(i: nat, j: nat, p: string, s: string)
    requires i < j < TICKER && i < 13 && Looks(i, p, Core(i)) && Looks(j, s, Core(j))
    ensures !Contains(s, p)
  {
    var c, e := Core(i), Core(j);
    if j > 13 {
      NotInside(p, c, s, e, 3);
    } else if c != e || i != 6 || j != 7 {
      NotInside(p, c, s, e, 9);
    } else {
      NotInside(p, c, s, e, 10);
    }
  }

  lemma TailNotInside(i: nat, j: nat, p: string, s: string)
    requires i < j < TICKER && (13 <= i < 23 || 30 <= i < 32) && Looks(i, p, Core(i)) && Looks(j, s, Core(j))
    ensures !Contains(s, p)
  {
    var c, e := Core(i), Core(j);
    if At(p, c, 3) != At(s, e, 3) {
      NotInside(p, c, s, e, 3);
    } else if i == 15 {
      NotInside(p, c, s, e, -3);
    } else if i == 17 && j == 18 {
      NotInside(p, c, s, e, 11);
    } else {
      NotInside(p, c, s, e, 4);
    }
  }

  lemma HeadNotInside(i: nat, j: nat, p: string, s: string)
    requires i < j < TICKER && (23 <= i < 30 || 32 <= i) && Looks(i, p, Core(i)) && Looks(j, s, Core(j))
    ensures !Contains(s, p)
  {
    var c, e := Core(i), Core(j);
    if i == 24 && j == 30 {
      NotInside(p, c, s, e, -5);
    } else if i < 26 {
      NotInside(p, c, s, e, -4);
    } else if i == 26 || i == 32 {
      NotInside(p, c, s, e, -2);
    } else {
      NotInside(p, c, s, e, -3);
    }
  }

  /** The list is ordered as its comment says: most specific first. */
  lemma MostSpecificFirst(i: nat, j: nat)
    requires i < j < TICKER
    ensures !Contains(REPLACEMENTS[j].pat, REPLACEMENTS[i].pat)
  {
    AllEntries(i);
    AllEntries(j);
    if i < 13 {
      UrlNotInside(i, j, REPLACEMENTS[i].pat, REPLACEMENTS[j].pat);
    } else if i < 23 || 30 <= i < 32 {
      TailNotInside(i, j, REPLACEMENTS[i].pat, REPLACEMENTS[j].pat);
    } else {
      HeadNotInside(i, j, REPLACEMENTS[i].pat, REPLACEMENTS[j].pat);
    }
  }

  /** A text without a middle holds no search string. */
  lemma NoCoreHoldsNone(rep: string, pat: string, c: nat)
    requires CoreAt(pat, c) && forall k | 0 <= k < |rep| :: !CoreAt(rep, k)
    ensures !Contains(rep, pat)
  {
    forall k | 0 <= k <= |rep| ensures !OccursAt(rep, pat, k) {
      assert k + c < |rep| ==> !CoreAt(rep, k + c);
      assert k + c + 1 < |rep| ==> rep[k..][c] == rep[k + c] && rep[k..][c + 1] == rep[k + c + 1];
    }
  }

  // --- In a text that has nothing to do with the list ---

  predicate Disjoint(u: string, pat: string) {
    forall k | 0 <= k < |u| :: u[k] !in pat
  }

  /** The text shares no character with any search string. */
  predicate Foreign(u: string) {
    forall i | 0 <= i < |REPLACEMENTS| :: Disjoint(u, REPLACEMENTS[i].pat)
  }

  /** Between foreign texts, a search string can only stand where it was put. */
  lemma OnlyBetween(u: string, x: string, v: string, pat: string)
    requires pat != "" && Disjoint(u, pat) && Disjoint(v, pat) && !Contains(x, pat)
    ensures !Contains(u + x + v, pat)
  {
    var t := u + x + v;
    forall k | 0 <= k <= |t| ensures !OccursAt(t, pat, k) {
      if pat <= t[k..] {
        StandsBetween(u, x, v, pat, k);
      }
    }
  }

  lemma StandsBetween(u: string, x: string, v: string, pat: string, k: nat)
    requires pat != "" && Disjoint(u, pat) && Disjoint(v, pat) && OccursAt(u + x + v, pat, k)
    ensures Contains(x, pat)
  {
    var t, z := u + x + v, k + |pat| - 1;
    assert forall m | 0 <= m < |pat| :: pat[m] == t[k + m];
    assert t[k] == pat[0] && t[z] == pat[|pat| - 1];
    assert forall m | 0 <= m < |u| :: t[m] == u[m];
    assert forall m | |u| + |x| <= m < |t| :: t[m] == v[m - |u| - |x|];
    assert pat <= x[k - |u|..];
    ContainsIntro(x, pat, k - |u|);
  }

  lemma {:induction false} Idle(isWord: char -> bool, rules: seq<Rule>, t: string, i: nat, j: nat)
    requires Proper(rules) && i <= j <= |rules|
    requires forall m | i <= m < j :: !Present(isWord, rules[m], After(isWord, rules, t, i))
    ensures After(isWord, rules, t, j) == After(isWord, rules, t, i)
  {
    if i < j {
      Idle(isWord, rules, t, i, j - 1);
      StepAbsent(isWord, rules[j - 1], After(isWord, rules, t, i));
    }
  }

  /** Put between foreign texts, the one string comes out as the other. */
  ghost predicate Becomes(isWord: char -> bool, u: string, a: string, v: string, b: string) {
    Rebranded(isWord, u + a + v) == u + b + v
  }

  lemma HoldsNoneBefore(j: nat, u: string, v: string, i: nat)
    requires i < j < TICKER && Foreign(u) && Foreign(v)
    ensures !Contains(u + REPLACEMENTS[j].pat + v, REPLACEMENTS[i].pat)
  {
    AllEntries(i);
    MostSpecificFirst(i, j);
    ForeignToAll(u, i);
    ForeignToAll(v, i);
    OnlyBetween(u, REPLACEMENTS[j].pat, v, REPLACEMENTS[i].pat);
  }

  lemma ForeignToAll(u: string, i: nat)
    requires i <= TICKER && Foreign(u)
    ensures Disjoint(u, REPLACEMENTS[i].pat)
  {
  }

  lemma HoldsNoneAfter(u: string, rep: string, v: string, i: nat)
    requires i < TICKER && Foreign(u) && Foreign(v) && AllBare(rep)
    ensures !Contains(u + rep + v, REPLACEMENTS[i].pat)
  {
    AllEntries(i);
    forall k | 0 <= k < |rep| ensures !CoreAt(rep, k) {
      assert Bare(rep, k);
    }
    NoCoreHoldsNone(rep, REPLACEMENTS[i].pat, Core(i));
    ForeignToAll(u, i);
    ForeignToAll(v, i);
    OnlyBetween(u, rep, v, REPLACEMENTS[i].pat);
  }

  lemma NoTickerThere(isWord: char -> bool, u: string, x: string, v: string)
    requires 'X' !in x && 'X' !in u && 'X' !in v
    ensures !HasWord(isWord, u + x + v, "XMR")
  {
    var t, word := u + x + v, "XMR";
    assert 'X' !in t && word[0] == 'X';
    forall k | 0 <= k <= |t| ensures !MatchAt(isWord, t, word, k) {
      assert k < |t| ==> t[k..][0] == t[k];
    }
  }

  /** Between foreign texts, a single pass replaces the one match. */
  lemma ReplaceBetween(u: string, v: string, pat: string, rep: string)
    requires pat != "" && Disjoint(u, pat) && Disjoint(v, pat)
    ensures Replace(u + pat + v, pat, rep) == u + rep + v
  {
    forall k | 0 <= k < |u| ensures !OccursAt(u + pat, pat, k) {
      assert (u + pat)[k..][0] == u[k];
    }
    ReplaceGap(u, v, pat, rep);
    forall k | 0 <= k <= |v| ensures !OccursAt(v, pat, k) {
      assert k < |v| ==> v[k..][0] == v[k];
    }
    ReplaceAbsent(v, pat, rep);
  }

  /** Nothing happens to the text before the turn of its own entry. */
  lemma UntilItsTurn(isWord: char -> bool, j: nat, u: string, v: string)
    requires j < TICKER && Foreign(u) && Foreign(v)
    ensures Proper(REPLACEMENTS)
    ensures After(isWord, REPLACEMENTS, u + REPLACEMENTS[j].pat + v, j) == u + REPLACEMENTS[j].pat + v
  {
    var t := u + REPLACEMENTS[j].pat + v;
    ListIsProper();
    forall i | 0 <= i < j ensures !Present(isWord, REPLACEMENTS[i], t) {
      AllHarmless(i);
      HoldsNoneBefore(j, u, v, i);
    }
    Idle(isWord, REPLACEMENTS, t, 0, j);
  }

  /** Nor after it. */
  lemma AfterItsTurn(isWord: char -> bool, j: nat, t: string, u: string, rep: string, v: string)
    requires LettersAreWord(isWord) && j <= TICKER && Foreign(u) && Foreign(v) && AllBare(rep)
    requires Proper(REPLACEMENTS) && j + 1 <= |REPLACEMENTS| && After(isWord, REPLACEMENTS, t, j + 1) == u + rep + v
    ensures Rebranded(isWord, t) == u + rep + v
  {
    TickerEntry(isWord);
    forall i | j + 1 <= i < |REPLACEMENTS| ensures !Present(isWord, REPLACEMENTS[i], u + rep + v) {
      if i < TICKER {
        AllHarmless(i);
        HoldsNoneAfter(u, rep, v, i);
      } else {
        NoXThere(u);
        NoXThere(v);
        BareHasNoX(rep);
        NoTickerThere(isWord, u, rep, v);
      }
    }
    Idle(isWord, REPLACEMENTS, t, j + 1, TICKER + 1);
  }

  lemma BareHasNoX(rep: string)
    requires AllBare(rep)
    ensures 'X' !in rep
  {
    forall k | 0 <= k < |rep| ensures rep[k] != 'X' {
      assert Bare(rep, k);
    }
  }

  lemma NoXThere(u: string)
    requires Foreign(u)
    ensures 'X' !in u
  {
    assert REPLACEMENTS[TICKER].pat[0] == 'X';
    ForeignToAll(u, TICKER);
  }

  lemma Outcome(isWord: char -> bool, j: nat, u: string, v: string)
    requires LettersAreWord(isWord) && j < TICKER && Foreign(u) && Foreign(v)
    ensures Becomes(isWord, u, REPLACEMENTS[j].pat, v, REPLACEMENTS[j].rep)
  {
    var pat, rep := REPLACEMENTS[j].pat, REPLACEMENTS[j].rep;
    AllEntries(j);
    UntilItsTurn(isWord, j, u, v);
    ForeignToAll(u, j);
    ForeignToAll(v, j);
    ReplaceBetween(u, v, pat, rep);
    AfterItsTurn(isWord, j, u + pat + v, u, rep, v);
  }

  ghost predicate AllBecome(isWord: char -> bool, rules: seq<Rule>, u: string, v: string) {
    forall j | 0 <= j < |rules| && rules[j].Plain? :: Becomes(isWord, u, rules[j].pat, v, rules[j].rep)
  }

  lemma Outcomes(isWord: char -> bool, u: string, v: string)
    requires LettersAreWord(isWord) && Foreign(u) && Foreign(v)
    ensures AllBecome(isWord, REPLACEMENTS, u, v)
  {
    TickerEntry(isWord);
    forall j | 0 <= j < |REPLACEMENTS| && REPLACEMENTS[j].Plain?
      ensures Becomes(isWord, u, REPLACEMENTS[j].pat, v, REPLACEMENTS[j].rep)
    {
      Outcome(isWord, j, u, v);
    }
  }

  lemma Named(isWord: char -> bool, u: string, v: string, j: nat, rule: Rule)
    requires AllBecome(isWord, REPLACEMENTS, u, v) && j < |REPLACEMENTS| && REPLACEMENTS[j] == rule && rule.Plain?
    ensures Becomes(isWord, u, rule.pat, v, rule.rep)
  {
  }

  // --- Entry by entry ---

  lemma CheckpointsAreListed()
    ensures |REPLACEMENTS| == 36
    ensures REPLACEMENTS[0] == Plain("checkpoints.moneropulse.co", "checkpoints.velkavo.com")
    ensures REPLACEMENTS[1] == Plain("checkpoints.moneropulse.net", "checkpoints.velkavo.com")
    ensures REPLACEMENTS[2] == Plain("checkpoints.moneropulse.org", "checkpoints.velkavo.com")
  {
  }

  lemma CheckpointsBecome(isWord: char -> bool, u: string, v: string)
    requires AllBecome(isWord, REPLACEMENTS, u, v)
    ensures Becomes(isWord, u, "checkpoints.moneropulse.co", v, "checkpoints.velkavo.com")
    ensures Becomes(isWord, u, "checkpoints.moneropulse.net", v, "checkpoints.velkavo.com")
    ensures Becomes(isWord, u, "checkpoints.moneropulse.org", v, "checkpoints.velkavo.com")
  {
    CheckpointsAreListed();
    Named(isWord, u, v, 0, Plain("checkpoints.moneropulse.co", "checkpoints.velkavo.com"));
    Named(isWord, u, v, 1, Plain("checkpoints.moneropulse.net", "checkpoints.velkavo.com"));
    Named(isWord, u, v, 2, Plain("checkpoints.moneropulse.org", "checkpoints.velkavo.com"));
  }

  lemma TestpointsAreListed()
    ensures |REPLACEMENTS| == 36
    ensures REPLACEMENTS[3] == Plain("testpoints.moneropulse.co", "testpoints.velkavo.com")
    ensures REPLACEMENTS[4] == Plain("testpoints.moneropulse.net", "testpoints.velkavo.com")
    ensures REPLACEMENTS[5] == Plain("testpoints.moneropulse.org", "testpoints.velkavo.com")
  {
  }

  lemma TestpointsBecome(isWord: char -> bool, u: string, v: string)
    requires AllBecome(isWord, REPLACEMENTS, u, v)
    ensures Becomes(isWord, u, "testpoints.moneropulse.co", v, "testpoints.velkavo.com")
    ensures Becomes(isWord, u, "testpoints.moneropulse.net", v, "testpoints.velkavo.com")
    ensures Becomes(isWord, u, "testpoints.moneropulse.org", v, "testpoints.velkavo.com")
  {
    TestpointsAreListed();
    Named(isWord, u, v, 3, Plain("testpoints.moneropulse.co", "testpoints.velkavo.com"));
    Named(isWord, u, v, 4, Plain("testpoints.moneropulse.net", "testpoints.velkavo.com"));
    Named(isWord, u, v, 5, Plain("testpoints.moneropulse.org", "testpoints.velkavo.com"));
  }

  lemma UpdatesAreListed()
    ensures |REPLACEMENTS| == 36
    ensures REPLACEMENTS[6] == Plain("updates.moneropulse.ch", "updates.velkavo.com")
    ensures REPLACEMENTS[7] == Plain("updates.moneropulse.co", "updates.velkavo.com")
    ensures REPLACEMENTS[8] == Plain("updates.moneropulse.de", "updates.velkavo.com")
    ensures REPLACEMENTS[9] == Plain("updates.moneropulse.fr", "updates.velkavo.com")
  {
  }

  lemma UpdatesBecome(isWord: char -> bool, u: string, v: string)
    requires AllBecome(isWord, REPLACEMENTS, u, v)
    ensures Becomes(isWord, u, "updates.moneropulse.ch", v, "updates.velkavo.com")
    ensures Becomes(isWord, u, "updates.moneropulse.co", v, "updates.velkavo.com")
    ensures Becomes(isWord, u, "updates.moneropulse.de", v, "updates.velkavo.com")
    ensures Becomes(isWord, u, "updates.moneropulse.fr", v, "updates.velkavo.com")
  {
    UpdatesAreListed();
    Named(isWord, u, v, 6, Plain("updates.moneropulse.ch", "updates.velkavo.com"));
    Named(isWord, u, v, 7, Plain("updates.moneropulse.co", "updates.velkavo.com"));
    Named(isWord, u, v, 8, Plain("updates.moneropulse.de", "updates.velkavo.com"));
    Named(isWord, u, v, 9, Plain("updates.moneropulse.fr", "updates.velkavo.com"));
  }

  lemma LastUpdatesAreListed()
    ensures |REPLACEMENTS| == 36
    ensures REPLACEMENTS[10] == Plain("updates.moneropulse.net", "updates.velkavo.com")
    ensures REPLACEMENTS[11] == Plain("updates.moneropulse.org", "updates.velkavo.com")
    ensures REPLACEMENTS[12] == Plain("updates.moneropulse.se", "updates.velkavo.com")
  {
  }

  lemma LastUpdatesBecome(isWord: char -> bool, u: string, v: string)
    requires AllBecome(isWord, REPLACEMENTS, u, v)
    ensures Becomes(isWord, u, "updates.moneropulse.net", v, "updates.velkavo.com")
    ensures Becomes(isWord, u, "updates.moneropulse.org", v, "updates.velkavo.com")
    ensures Becomes(isWord, u, "updates.moneropulse.se", v, "updates.velkavo.com")
  {
    LastUpdatesAreListed();
    Named(isWord, u, v, 10, Plain("updates.moneropulse.net", "updates.velkavo.com"));
    Named(isWord, u, v, 11, Plain("updates.moneropulse.org", "updates.velkavo.com"));
    Named(isWord, u, v, 12, Plain("updates.moneropulse.se", "updates.velkavo.com"));
  }

  lemma DaemonsAreListed()
    ensures |REPLACEMENTS| == 36
    ensures REPLACEMENTS[13] == Plain("moneropulse", "velkavopulse")
    ensures REPLACEMENTS[14] == Plain("MONEROD", "VELKAROD")
    ensures REPLACEMENTS[15] == Plain("Monerod", "Velkarod")
    ensures REPLACEMENTS[16] == Plain("monerod", "velkarod")
  {
  }

  lemma DaemonsBecome(isWord: char -> bool, u: string, v: string)
    requires AllBecome(isWord, REPLACEMENTS, u, v)
    ensures Becomes(isWord, u, "moneropulse", v, "velkavopulse")
    ensures Becomes(isWord, u, "MONEROD", v, "VELKAROD")
    ensures Becomes(isWord, u, "Monerod", v, "Velkarod")
    ensures Becomes(isWord, u, "monerod", v, "velkarod")
  {
    DaemonsAreListed();
    Named(isWord, u, v, 13, Plain("moneropulse", "velkavopulse"));
    Named(isWord, u, v, 14, Plain("MONEROD", "VELKAROD"));
    Named(isWord, u, v, 15, Plain("Monerod", "Velkarod"));
    Named(isWord, u, v, 16, Plain("monerod", "velkarod"));
  }

  lemma WalletsAreListed()
    ensures |REPLACEMENTS| == 36
    ensures REPLACEMENTS[17] == Plain("monero-wallet-cli", "velkavo-wallet-cli")
    ensures REPLACEMENTS[18] == Plain("monero-wallet-rpc", "velkavo-wallet-rpc")
  {
  }

  lemma WalletsBecome(isWord: char -> bool, u: string, v: string)
    requires AllBecome(isWord, REPLACEMENTS, u, v)
    ensures Becomes(isWord, u, "monero-wallet-cli", v, "velkavo-wallet-cli")
    ensures Becomes(isWord, u, "monero-wallet-rpc", v, "velkavo-wallet-rpc")
  {
    WalletsAreListed();
    Named(isWord, u, v, 17, Plain("monero-wallet-cli", "velkavo-wallet-cli"));
    Named(isWord, u, v, 18, Plain("monero-wallet-rpc", "velkavo-wallet-rpc"));
  }

  lemma ToolsAndMessagesAreListed()
    ensures |REPLACEMENTS| == 36
    ensures REPLACEMENTS[19] == Plain("monero-gen-multisig", "velkavo-gen-multisig")
    ensures REPLACEMENTS[20] == Plain("monero-blockchain", "velkavo-blockchain")
    ensures REPLACEMENTS[21] == Plain("monero-crypto", "velkavo-crypto")
    ensures REPLACEMENTS[22] == Plain("monero_crypto", "velkavo_crypto")
    ensures REPLACEMENTS[23] == Plain("messages-monero", "messages-velkavo")
    ensures REPLACEMENTS[24] == Plain("messages_monero", "messages_velkavo")
  {
  }

  lemma ToolsAndMessagesBecome(isWord: char -> bool, u: string, v: string)
    requires AllBecome(isWord, REPLACEMENTS, u, v)
    ensures Becomes(isWord, u, "monero-gen-multisig", v, "velkavo-gen-multisig")
    ensures Becomes(isWord, u, "monero-blockchain", v, "velkavo-blockchain")
    ensures Becomes(isWord, u, "monero-crypto", v, "velkavo-crypto")
    ensures Becomes(isWord, u, "monero_crypto", v, "velkavo_crypto")
    ensures Becomes(isWord, u, "messages-monero", v, "messages-velkavo")
    ensures Becomes(isWord, u, "messages_monero", v, "messages_velkavo")
  {
    ToolsAndMessagesAreListed();
    Named(isWord, u, v, 19, Plain("monero-gen-multisig", "velkavo-gen-multisig"));
    Named(isWord, u, v, 20, Plain("monero-blockchain", "velkavo-blockchain"));
    Named(isWord, u, v, 21, Plain("monero-crypto", "velkavo-crypto"));
    Named(isWord, u, v, 22, Plain("monero_crypto", "velkavo_crypto"));
    Named(isWord, u, v, 23, Plain("messages-monero", "messages-velkavo"));
    Named(isWord, u, v, 24, Plain("messages_monero", "messages_velkavo"));
  }

  lemma DeviceAndSubunitsAreListed()
    ensures |REPLACEMENTS| == 36
    ensures REPLACEMENTS[25] == Plain("hw.trezor.messages.monero", "hw.trezor.messages.velkavo")
    ensures REPLACEMENTS[26] == Plain("millinero", "millivkavo")
    ensures REPLACEMENTS[27] == Plain("micronero", "microvkavo")
    ensures REPLACEMENTS[28] == Plain("nanonero", "nanovkavo")
    ensures REPLACEMENTS[29] == Plain("piconero", "picovkavo")
  {
  }

  lemma DeviceAndSubunitsBecome(isWord: char -> bool, u: string, v: string)
    requires AllBecome(isWord, REPLACEMENTS, u, v)
    ensures Becomes(isWord, u, "hw.trezor.messages.monero", v, "hw.trezor.messages.velkavo")
    ensures Becomes(isWord, u, "millinero", v, "millivkavo")
    ensures Becomes(isWord, u, "micronero", v, "microvkavo")
    ensures Becomes(isWord, u, "nanonero", v, "nanovkavo")
    ensures Becomes(isWord, u, "piconero", v, "picovkavo")
  {
    DeviceAndSubunitsAreListed();
    Named(isWord, u, v, 25, Plain("hw.trezor.messages.monero", "hw.trezor.messages.velkavo"));
    Named(isWord, u, v, 26, Plain("millinero", "millivkavo"));
    Named(isWord, u, v, 27, Plain("micronero", "microvkavo"));
    Named(isWord, u, v, 28, Plain("nanonero", "nanovkavo"));
    Named(isWord, u, v, 29, Plain("piconero", "picovkavo"));
  }

  lemma FilesAndNamesAreListed()
    ensures |REPLACEMENTS| == 36
    ensures REPLACEMENTS[30] == Plain("unsigned_monero_tx", "unsigned_velkavo_tx")
    ensures REPLACEMENTS[31] == Plain("The Monero Project", "Velkavo")
    ensures REPLACEMENTS[32] == Plain("MONERO", "VELKAVO")
    ensures REPLACEMENTS[33] == Plain("Monero", "Velkavo")
    ensures REPLACEMENTS[34] == Plain("monero", "velkavo")
  {
  }

  lemma FilesAndNamesBecome(isWord: char -> bool, u: string, v: string)
    requires AllBecome(isWord, REPLACEMENTS, u, v)
    ensures Becomes(isWord, u, "unsigned_monero_tx", v, "unsigned_velkavo_tx")
    ensures Becomes(isWord, u, "The Monero Project", v, "Velkavo")
    ensures Becomes(isWord, u, "MONERO", v, "VELKAVO")
    ensures Becomes(isWord, u, "Monero", v, "Velkavo")
    ensures Becomes(isWord, u, "monero", v, "velkavo")
  {
    FilesAndNamesAreListed();
    Named(isWord, u, v, 30, Plain("unsigned_monero_tx", "unsigned_velkavo_tx"));
    Named(isWord, u, v, 31, Plain("The Monero Project", "Velkavo"));
    Named(isWord, u, v, 32, Plain("MONERO", "VELKAVO"));
    Named(isWord, u, v, 33, Plain("Monero", "Velkavo"));
    Named(isWord, u, v, 34, Plain("monero", "velkavo"));
  }

  /** What each search string becomes, between texts that share no character with the list. */
  lemma EachBecomes(isWord: char -> bool, u: string, v: string)
    requires LettersAreWord(isWord) && Foreign(u) && Foreign(v)
    ensures Becomes(isWord, u, "checkpoints.moneropulse.co", v, "checkpoints.velkavo.com")
    ensures Becomes(isWord, u, "checkpoints.moneropulse.net", v, "checkpoints.velkavo.com")
    ensures Becomes(isWord, u, "checkpoints.moneropulse.org", v, "checkpoints.velkavo.com")
    ensures Becomes(isWord, u, "testpoints.moneropulse.co", v, "testpoints.velkavo.com")
    ensures Becomes(isWord, u, "testpoints.moneropulse.net", v, "testpoints.velkavo.com")
    ensures Becomes(isWord, u, "testpoints.moneropulse.org", v, "testpoints.velkavo.com")
    ensures Becomes(isWord, u, "updates.moneropulse.ch", v, "updates.velkavo.com")
    ensures Becomes(isWord, u, "updates.moneropulse.co", v, "updates.velkavo.com")
    ensures Becomes(isWord, u, "updates.moneropulse.de", v, "updates.velkavo.com")
    ensures Becomes(isWord, u, "updates.moneropulse.fr", v, "updates.velkavo.com")
    ensures Becomes(isWord, u, "updates.moneropulse.net", v, "updates.velkavo.com")
    ensures Becomes(isWord, u, "updates.moneropulse.org", v, "updates.velkavo.com")
    ensures Becomes(isWord, u, "updates.moneropulse.se", v, "updates.velkavo.com")
    ensures Becomes(isWord, u, "moneropulse", v, "velkavopulse")
    ensures Becomes(isWord, u, "MONEROD", v, "VELKAROD")
    ensures Becomes(isWord, u, "Monerod", v, "Velkarod")
    ensures Becomes(isWord, u, "monerod", v, "velkarod")
    ensures Becomes(isWord, u, "monero-wallet-cli", v, "velkavo-wallet-cli")
    ensures Becomes(isWord, u, "monero-wallet-rpc", v, "velkavo-wallet-rpc")
    ensures Becomes(isWord, u, "monero-gen-multisig", v, "velkavo-gen-multisig")
    ensures Becomes(isWord, u, "monero-blockchain", v, "velkavo-blockchain")
    ensures Becomes(isWord, u, "monero-crypto", v, "velkavo-crypto")
    ensures Becomes(isWord, u, "monero_crypto", v, "velkavo_crypto")
    ensures Becomes(isWord, u, "messages-monero", v, "messages-velkavo")
    ensures Becomes(isWord, u, "messages_monero", v, "messages_velkavo")
    ensures Becomes(isWord, u, "hw.trezor.messages.monero", v, "hw.trezor.messages.velkavo")
    ensures Becomes(isWord, u, "millinero", v, "millivkavo")
    ensures Becomes(isWord, u, "micronero", v, "microvkavo")
    ensures Becomes(isWord, u, "nanonero", v, "nanovkavo")
    ensures Becomes(isWord, u, "piconero", v, "picovkavo")
    ensures Becomes(isWord, u, "unsigned_monero_tx", v, "unsigned_velkavo_tx")
    ensures Becomes(isWord, u, "The Monero Project", v, "Velkavo")
    ensures Becomes(isWord, u, "MONERO", v, "VELKAVO")
    ensures Becomes(isWord, u, "Monero", v, "Velkavo")
    ensures Becomes(isWord, u, "monero", v, "velkavo")
  {
    Outcomes(isWord, u, v);
    CheckpointsBecome(isWord, u, v);
    TestpointsBecome(isWord, u, v);
    UpdatesBecome(isWord, u, v);
    LastUpdatesBecome(isWord, u, v);
    DaemonsBecome(isWord, u, v);
    WalletsBecome(isWord, u, v);
    ToolsAndMessagesBecome(isWord, u, v);
    DeviceAndSubunitsBecome(isWord, u, v);
    FilesAndNamesBecome(isWord, u, v);
  }

  /** The ticker, too, where no word character stands next to it. */
  lemma TickerBecomes(isWord: char -> bool, u: string, v: string)
    requires LettersAreWord(isWord) && Foreign(u) && Foreign(v)
    requires (u != "" ==> !isWord(u[|u| - 1])) && (v != "" ==> !isWord(v[0]))
    ensures Becomes(isWord, u, "XMR", v, "VKV")
  {
    var word, t := "XMR", u + "XMR" + v;
    TickerEntry(isWord);
    ListIsProper();
    assert forall k | 0 <= k < |word| :: !CoreAt(word, k);
    forall i | 0 <= i < TICKER ensures !Present(isWord, REPLACEMENTS[i], t) {
      AllHarmless(i);
      AllEntries(i);
      NoCoreHoldsNone(word, REPLACEMENTS[i].pat, Core(i));
      ForeignToAll(u, i);
      ForeignToAll(v, i);
      OnlyBetween(u, word, v, REPLACEMENTS[i].pat);
    }
    Idle(isWord, REPLACEMENTS, t, 0, TICKER);
    NoXThere(u);
    NoXThere(v);
    SubBetween(isWord, u, v, word, "VKV");
  }

  lemma SubBetween(isWord: char -> bool, u: string, v: string, word: string, rep: string)
    requires word != "" && isWord(word[0]) && isWord(word[|word| - 1]) && word[0] !in u && word[0] !in v
    requires (u != "" ==> !isWord(u[|u| - 1])) && (v != "" ==> !isWord(v[0]))
    ensures Sub(isWord, u + word + v, word, rep) == u + rep + v
  {
    var t, n := u + word + v, |u| + |word|;
    OneMatch(isWord, u, v, word);
    SubCopiesGap(isWord, t, word, rep, u, 0);
    SubSteps(isWord, t, word, rep, |u|);
    SubCopiesGap(isWord, t, word, rep, v, n);
    JoinBetween(u, rep, v);
  }

  lemma JoinBetween(u: string, rep: string, v: string)
    ensures u + (rep + (v + "")) == u + rep + v
  {
  }

  lemma OneMatch(isWord: char -> bool, u: string, v: string, word: string)
    requires word != "" && isWord(word[0]) && isWord(word[|word| - 1]) && word[0] !in u && word[0] !in v
    requires (u != "" ==> !isWord(u[|u| - 1])) && (v != "" ==> !isWord(v[0]))
    ensures var t := u + word + v;
            && IsGap(isWord, t, word, u, 0) && MatchAt(isWord, t, word, |u|)
            && IsGap(isWord, t, word, v, |u| + |word|)
  {
    var t, n := u + word + v, |u| + |word|;
    assert t[|u|..n] == word;
    MatchAtIff(isWord, t, word, |u|);
    forall m | 0 <= m < |u| || n <= m < |t| ensures !MatchAt(isWord, t, word, m) {
      assert t[m..][0] == t[m] == if m < |u| then u[m] else v[m - n];
    }
    assert t[0..] == t && t[n..] == v;
  }
}
