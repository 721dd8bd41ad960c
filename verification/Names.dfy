/** The header names the program spells out are spelled canonically. */
module Names {
  import opened Headers

  lemma MarkerWords()
    ensures Word("X") && Word("Omnihook") && Word("Forward")
  {
  }

  lemma RequestWords()
    ensures Word("Replay") && Word("Request") && Word("Id")
  {
  }

  lemma TypeWords()
    ensures Word("Content") && Word("Type")
  {
  }

  lemma SignatureWord()
    ensures Word("Signature")
  {
  }

  lemma StripeWords()
    ensures Word("Stripe") && Word("Hub") && Word("256")
  {
  }

  lemma WebhookWords()
    ensures Word("Webhook") && Word("Svix")
  {
  }

  lemma TimestampWord()
    ensures Word("Timestamp")
  {
  }

  lemma ShopWords()
    ensures Word("Razorpay") && Word("Shopify")
  {
  }

  lemma ShopifyWords()
    ensures Word("Hmac") && Word("Sha256") && Word("Topic")
  {
  }

  lemma ContentTypeName()
    ensures IsName("Content-Type")
  {
    TypeWords();
    TwoWords("Content", "Type");
    assert "Content" + "-" + "Type" == "Content-Type";
  }

  lemma XOmnihookForwardName()
    ensures IsName("X-Omnihook-Forward")
  {
    MarkerWords();
    ThreeWords("X", "Omnihook", "Forward");
    XOmnihookForwardText();
  }

  lemma XOmnihookForwardText()
    ensures "X" + "-" + "Omnihook" + "-" + "Forward" == "X-Omnihook-Forward"
  {
  }

  lemma XOmnihookReplayName()
    ensures IsName("X-Omnihook-Replay")
  {
    MarkerWords();
    RequestWords();
    ThreeWords("X", "Omnihook", "Replay");
    XOmnihookReplayText();
  }

  lemma XOmnihookReplayText()
    ensures "X" + "-" + "Omnihook" + "-" + "Replay" == "X-Omnihook-Replay"
  {
  }

  lemma XOmnihookRequestIdName()
    ensures IsName("X-Omnihook-Request-Id")
  {
    MarkerWords();
    RequestWords();
    ThreeWords("X", "Omnihook", "Request");
    HyphenName("X" + "-" + "Omnihook" + "-" + "Request", "Id");
    XOmnihookRequestIdText();
  }

  lemma XOmnihookRequestIdText()
    ensures "X" + "-" + "Omnihook" + "-" + "Request" + "-" + "Id" == "X-Omnihook-Request-Id"
  {
  }

  lemma StripeSignatureName()
    ensures IsName("Stripe-Signature")
  {
    StripeWords();
    SignatureWord();
    TwoWords("Stripe", "Signature");
    assert "Stripe" + "-" + "Signature" == "Stripe-Signature";
  }

  lemma XHubSignatureName()
    ensures IsName("X-Hub-Signature")
  {
    MarkerWords();
    StripeWords();
    SignatureWord();
    ThreeWords("X", "Hub", "Signature");
    XHubSignatureText();
  }

  lemma XHubSignatureText()
    ensures "X" + "-" + "Hub" + "-" + "Signature" == "X-Hub-Signature"
  {
  }

  lemma XHubSignature256Name()
    ensures IsName("X-Hub-Signature-256")
  {
    MarkerWords();
    StripeWords();
    SignatureWord();
    ThreeWords("X", "Hub", "Signature");
    HyphenName("X" + "-" + "Hub" + "-" + "Signature", "256");
    XHubSignature256Text();
  }

  lemma XHubSignature256Text()
    ensures "X" + "-" + "Hub" + "-" + "Signature" + "-" + "256" == "X-Hub-Signature-256"
  {
  }

  lemma WebhookIdName()
    ensures IsName("Webhook-Id")
  {
    WebhookWords();
    RequestWords();
    TwoWords("Webhook", "Id");
    assert "Webhook" + "-" + "Id" == "Webhook-Id";
  }

  lemma WebhookTimestampName()
    ensures IsName("Webhook-Timestamp")
  {
    WebhookWords();
    TimestampWord();
    TwoWords("Webhook", "Timestamp");
    assert "Webhook" + "-" + "Timestamp" == "Webhook-Timestamp";
  }

  lemma WebhookSignatureName()
    ensures IsName("Webhook-Signature")
  {
    WebhookWords();
    SignatureWord();
    TwoWords("Webhook", "Signature");
    assert "Webhook" + "-" + "Signature" == "Webhook-Signature";
  }

  lemma SvixIdName()
    ensures IsName("Svix-Id")
  {
    WebhookWords();
    RequestWords();
    TwoWords("Svix", "Id");
    assert "Svix" + "-" + "Id" == "Svix-Id";
  }

  lemma SvixTimestampName()
    ensures IsName("Svix-Timestamp")
  {
    WebhookWords();
    TimestampWord();
    TwoWords("Svix", "Timestamp");
    assert "Svix" + "-" + "Timestamp" == "Svix-Timestamp";
  }

  lemma SvixSignatureName()
    ensures IsName("Svix-Signature")
  {
    WebhookWords();
    SignatureWord();
    TwoWords("Svix", "Signature");
    assert "Svix" + "-" + "Signature" == "Svix-Signature";
  }

  lemma XRazorpaySignatureName()
    ensures IsName("X-Razorpay-Signature")
  {
    MarkerWords();
    ShopWords();
    SignatureWord();
    ThreeWords("X", "Razorpay", "Signature");
    XRazorpaySignatureText();
  }

  lemma XRazorpaySignatureText()
    ensures "X" + "-" + "Razorpay" + "-" + "Signature" == "X-Razorpay-Signature"
  {
  }

  lemma XShopifyHmacSha256Name()
    ensures IsName("X-Shopify-Hmac-Sha256")
  {
    MarkerWords();
    ShopWords();
    ShopifyWords();
    ThreeWords("X", "Shopify", "Hmac");
    HyphenName("X" + "-" + "Shopify" + "-" + "Hmac", "Sha256");
    XShopifyHmacSha256Text();
  }

  lemma XShopifyHmacSha256Text()
    ensures "X" + "-" + "Shopify" + "-" + "Hmac" + "-" + "Sha256" == "X-Shopify-Hmac-Sha256"
  {
  }

  lemma XShopifyTopicName()
    ensures IsName("X-Shopify-Topic")
  {
    MarkerWords();
    ShopWords();
    ShopifyWords();
    ThreeWords("X", "Shopify", "Topic");
    XShopifyTopicText();
  }

  lemma XShopifyTopicText()
    ensures "X" + "-" + "Shopify" + "-" + "Topic" == "X-Shopify-Topic"
  {
  }
}
