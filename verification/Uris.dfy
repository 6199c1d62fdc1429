/** Fresh identifiers. */
module Uris {

  /** An identifier that is not taken yet; which one does not matter. */
  method GenUri(taken: set<string>) returns (uri: string)
    ensures uri !in taken
  {
    uri := "d:";
    ghost var tried := {};
    while uri in taken
      invariant tried <= taken && forall u :: u in tried ==> |u| < |uri|
      decreases taken - tried
    {
      tried := tried + {uri};
      uri := uri + "x";
    }
  }
}
