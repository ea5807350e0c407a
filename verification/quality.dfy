/**
 * The quality tables shared by the Facebook, TikTok and Instagram
 * downloaders: a quality name picks a yt-dlp format selector, and the
 * console menu picks a quality name.
 */
module Quality {

  const BestSelector := "bestvideo+bestaudio/best"
  const MediumSelector := "bestvideo[height<=720]+bestaudio/best[height<=720]"
  const WorstSelector := "worstvideo+worstaudio/worst"

  /**
   * `quality_map.get(quality, quality_map["best"])`: the three known names
   * get their own selector, and every other name gets the one for "best".
   */
  function Selector(quality: string): (f: string)
    ensures f == BestSelector || f == MediumSelector || f == WorstSelector
    ensures f == MediumSelector <==> quality == "medium"
    ensures f == WorstSelector <==> quality == "worst"
    ensures f == BestSelector <==> quality != "medium" && quality != "worst"
  {
    var table := map["best" := BestSelector, "medium" := MediumSelector, "worst" := WorstSelector];
    if quality in table then table[quality] else table["best"]
  }

  /**
   * The console menu: "1", "2" and "3" choose best, medium and worst; an empty
   * answer and every other answer choose best.
   */
  function MenuQuality(choice: string): (q: string)
    ensures q == "best" || q == "medium" || q == "worst"
    ensures q == "medium" <==> choice == "2"
    ensures q == "worst" <==> choice == "3"
  {
    var table := map["1" := "best", "2" := "medium", "3" := "worst", "" := "best"];
    if choice in table then table[choice] else "best"
  }
}
