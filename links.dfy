/**
 * The purchase-link rule shared by all three programs: the link must start
 * with `http://` or `https://` (case-sensitive), and must then mention one of
 * the two permitted shops. The programs differ only in whether the shop test
 * looks at the link itself or at its lower-cased form, so that choice is a
 * parameter here.
 */
module Links {
  import opened Strings

  /** The outcome of a check; the two rejections carry the message the program prints. */
  datatype LinkCheck =
    | Accepted
    | WrongScheme   // "please enter a valid link"
    | WrongDomain   // "only 11st or Coupang links are allowed"

  const HttpScheme: string := "http://"
  const HttpsScheme: string := "https://"
  const ElevenStreet: string := "11st.co.kr"
  const Coupang: string := "coupang.com"

  ghost predicate HasWebScheme(link: string) {
    IsPrefix(HttpScheme, link) || IsPrefix(HttpsScheme, link)
  }

  ghost predicate NamesShop(text: string) {
    Occurs(ElevenStreet, text) || Occurs(Coupang, text)
  }

  /** The text the shop test inspects. */
  function DomainText(link: string, foldDomainCase: bool): string {
    if foldDomainCase then LowerAscii(link) else link
  }

  /**
   * The scheme test runs first and short-circuits; the shop test runs on the
   * lower-cased link when `foldDomainCase` holds and on the link as typed otherwise.
   */
  function Validate(link: string, foldDomainCase: bool): (r: LinkCheck)
    ensures r == WrongScheme <==> !HasWebScheme(link)
    ensures r == WrongDomain <==> HasWebScheme(link) && !NamesShop(DomainText(link, foldDomainCase))
    ensures r == Accepted <==> HasWebScheme(link) && NamesShop(DomainText(link, foldDomainCase))
  {
    if !(StartsWith(link, HttpScheme) || StartsWith(link, HttpsScheme)) then
      WrongScheme
    else
      var text := DomainText(link, foldDomainCase);
      if !(Contains(text, ElevenStreet) || Contains(text, Coupang)) then WrongDomain else Accepted
  }

  /** A link naming neither shop is refused once its scheme is right. */
  lemma ForeignShopRefused(foldDomainCase: bool)
    ensures Validate("https://example.com", foldDomainCase) == WrongDomain
  {
    var link := "https://example.com";
    assert IsPrefix(HttpsScheme, link);
    assert DomainText(link, foldDomainCase) == link;
    MissingCharRulesOut(Coupang, link, 2);
    MissingCharRulesOut(ElevenStreet, link, 0);
  }

  /** A link without a web scheme is refused whatever shop it names. */
  lemma FtpLinkRefused(foldDomainCase: bool)
    ensures Validate("ftp://coupang.com/x", foldDomainCase) == WrongScheme
  {
    var link := "ftp://coupang.com/x";
    assert link[0] != HttpScheme[0];
  }

  lemma CoupangLinkAccepted(foldDomainCase: bool)
    ensures Validate("https://www.coupang.com/item/1", foldDomainCase) == Accepted
  {
    var link := "https://www.coupang.com/item/1";
    assert IsPrefix(HttpsScheme, link);
    assert OccursAt(Coupang, DomainText(link, foldDomainCase), 12);
  }

  lemma ElevenStreetLinkAccepted(foldDomainCase: bool)
    ensures Validate("http://www.11st.co.kr/product/2", foldDomainCase) == Accepted
  {
    var link := "http://www.11st.co.kr/product/2";
    assert IsPrefix(HttpScheme, link);
    assert link[11..21] == ElevenStreet by {
      forall k | 0 <= k < 10 ensures link[11..21][k] == ElevenStreet[k] {
        assert link[11..21][k] == link[11 + k];
      }
    }
    var text := DomainText(link, foldDomainCase);
    assert text[11..21] == link[11..21] by {
      forall k | 11 <= k < 21 ensures text[k] == link[k] {
        assert !('A' <= link[k] <= 'Z');
      }
    }
    assert OccursAt(ElevenStreet, text, 11);
  }
}
