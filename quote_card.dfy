/** The quotes the card shows. */
module QuoteList {
  import opened QuoteDisplay
  import opened DateChecksum

  /** The thirty quotes, in the order they are indexed. */
  const Quotes: seq<Quote> := seq(30, i requires 0 <= i < 30 => QuoteNumber(i))

  /** The quote at position `i` of the list. */
  function QuoteNumber(i: nat): Quote
    requires i < 30
  {
    match i
    case 0 => Quote("The only way to do great work is to love what you do.", "Steve Jobs", "motivation")
    case 1 => Quote("Life is what happens to you while you're busy making other plans.", "John Lennon", "life")
    case 2 => Quote("The future belongs to those who believe in the beauty of their dreams.", "Eleanor Roosevelt", "dreams")
    case 3 => Quote("In the midst of winter, I found there was, within me, an invincible summer.", "Albert Camus", "resilience")
    case 4 => Quote("Be yourself; everyone else is already taken.", "Oscar Wilde", "authenticity")
    case 5 => Quote("Two things are infinite: the universe and human stupidity; and I'm not sure about the universe.", "Albert Einstein", "wisdom")
    case 6 => Quote("The unexamined life is not worth living.", "Socrates", "philosophy")
    case 7 => Quote("I think, therefore I am.", "René Descartes", "philosophy")
    case 8 => Quote("The only true wisdom is in knowing you know nothing.", "Socrates", "wisdom")
    case 9 => Quote("Happiness is not something ready made. It comes from your own actions.", "Dalai Lama", "happiness")
    case 10 => Quote("The way to get started is to quit talking and begin doing.", "Walt Disney", "action")
    case 11 => Quote("Innovation distinguishes between a leader and a follower.", "Steve Jobs", "innovation")
    case 12 => Quote("Life is 10% what happens to you and 90% how you react to it.", "Charles R. Swindoll", "mindset")
    case 13 => Quote("The mind is everything. What you think you become.", "Buddha", "mindfulness")
    case 14 => Quote("Yesterday is history, tomorrow is a mystery, today is a gift.", "Eleanor Roosevelt", "present")
    case 15 => Quote("It is during our darkest moments that we must focus to see the light.", "Aristotle", "hope")
    case 16 => Quote("The only person you are destined to become is the person you decide to be.", "Ralph Waldo Emerson", "self-determination")
    case 17 => Quote("Go confidently in the direction of your dreams. Live the life you have imagined.", "Henry David Thoreau", "dreams")
    case 18 => Quote("Success is not final, failure is not fatal: it is the courage to continue that counts.", "Winston Churchill", "perseverance")
    case 19 => Quote("The greatest glory in living lies not in never falling, but in rising every time we fall.", "Nelson Mandela", "resilience")
    case 20 => Quote("What lies behind us and what lies before us are tiny matters compared to what lies within us.", "Ralph Waldo Emerson", "inner-strength")
    case 21 => Quote("Be the change that you wish to see in the world.", "Mahatma Gandhi", "change")
    case 22 => Quote("In three words I can sum up everything I've learned about life: it goes on.", "Robert Frost", "life")
    case 23 => Quote("If you tell the truth, you don't have to remember anything.", "Mark Twain", "honesty")
    case 24 => Quote("A friend is someone who knows all about you and still loves you.", "Elbert Hubbard", "friendship")
    case 25 => Quote("To live is the rarest thing in the world. Most people just exist.", "Oscar Wilde", "living")
    case 26 => Quote("That which does not kill us makes us stronger.", "Friedrich Nietzsche", "strength")
    case 27 => Quote("Live as if you were to die tomorrow. Learn as if you were to live forever.", "Mahatma Gandhi", "learning")
    case 28 => Quote("Darkness cannot drive out darkness: only light can do that.", "Martin Luther King Jr.", "love")
    case _ => Quote("We accept the love we think we deserve.", "Stephen Chbosky", "self-worth")
  }
}

/** The quote card component: its state and the effects and handlers that change it. */
module QuoteCard {
  import opened Wrappers
  import opened QuoteList
  import opened QuoteDisplay
  import opened DateChecksum

  /** For a date-shaped selection both the date effect and a refresh show a quote of the
      list, never `undefined`. */
  lemma {:induction false} ShownQuoteListed(date: string, r: int)
    requires DateShape(date) && 0 <= r < 1000
    ensures DeterministicQuote(Quotes, date).Some? && DeterministicQuote(Quotes, date).value in Quotes
    ensures RandomQuote(Quotes, date, r).Some? && RandomQuote(Quotes, date, r).value in Quotes
  {
    KeyIndices(Quotes, date, r);
  }

  /** The quote card's state. */
  class Card {
    var selectedDate: string
    var currentQuote: Option<Quote>
    var isLoading: bool
    /** The date the pending refresh was started for: its timeout reads the date of the
        render that scheduled it. */
    var refreshDate: string

    /** Mounting runs both effects in declaration order, the date effect first, so the
        quote shown first is the random one. */
    constructor Mount(date: string, r: int)
      requires 0 <= r < 1000
      ensures selectedDate == date && !isLoading
      ensures currentQuote == RandomQuote(Quotes, date, r)
    {
      selectedDate := date;
      isLoading := false;
      refreshDate := date;
      currentQuote := DeterministicQuote(Quotes, date);
      currentQuote := RandomQuote(Quotes, date, r);
    }

    /** A new selected date re-runs the date effect; the same date changes nothing. */
    method ChangeDate(date: string)
      modifies this
      ensures selectedDate == date
      ensures date != old(selectedDate) ==> currentQuote == DeterministicQuote(Quotes, date)
      ensures date == old(selectedDate) ==> currentQuote == old(currentQuote)
      ensures isLoading == old(isLoading) && refreshDate == old(refreshDate)
    {
      if date != selectedDate {
        currentQuote := DeterministicQuote(Quotes, date);
      }
      selectedDate := date;
    }

    /** `refreshQuote` before its timeout: the spinner turns on; the button is disabled
        while it spins. */
    method BeginRefresh()
      requires !isLoading
      modifies this
      ensures isLoading && refreshDate == selectedDate
      ensures selectedDate == old(selectedDate) && currentQuote == old(currentQuote)
    {
      isLoading := true;
      refreshDate := selectedDate;
    }

    /** The timeout of `refreshQuote`: a random quote for the date it was started on. */
    method CompleteRefresh(r: int)
      requires isLoading && 0 <= r < 1000
      modifies this
      ensures !isLoading && currentQuote == RandomQuote(Quotes, old(refreshDate), r)
      ensures selectedDate == old(selectedDate) && refreshDate == old(refreshDate)
    {
      currentQuote := RandomQuote(Quotes, refreshDate, r);
      isLoading := false;
    }
  }
}
